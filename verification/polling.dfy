/** The exported `usePaymentVerification` hook (`hooks/usePaymentVerification.ts`) as
    a state machine.

    React state, the effect and the interval become one record and a step function
    over discrete events. A step returns the new state and the effects it asks of the
    outside world: a status request, or a call of `onPaymentComplete`. Requests are
    answered by later `PollResponse`/`PollFailure` events, one per request in flight.
    The effect that starts and stops polling re-runs exactly when `isPolling` or
    `email` changed, which `Settle` applies after every state change. */
module PaymentPolling {
  import opened Wrappers
  import opened Types
  import opened EmailFormat

  /** The hook's options that matter here. `onPaymentComplete`, when supplied, keeps
      its identity across renders; it returns or throws. */
  datatype Config = Config(
    paymentLinkID: string,
    initialEmail: string,
    callback: Option<PaymentStatus -> Completion<()>>)

  /** `status`, `email`, `isPolling`; whether the interval is set; how many status
      requests are unanswered; whether the component is still mounted. */
  datatype Hook = Hook(
    status: PaymentStatus,
    email: string,
    isPolling: bool,
    timerArmed: bool,
    inFlight: nat,
    mounted: bool)

  /** How a status request ends: a response that is not `ok`, or a parsed body. */
  datatype Reply = NotOk | Body(reply: StatusReply)

  datatype Event =
    | Register(newEmail: string)        // `registerPayment(newEmail)`
    | CheckNow                          // the caller invokes `checkPaymentStatus()`
    | Tick                              // the interval fires
    | PollResponse(r: Reply)            // a status request completes
    | PollFailure(message: Option<string>)  // it throws; `None` for a non-`Error` value
    | Teardown                          // the component unmounts

  datatype Effect = Fetch(paymentLinkID: string, email: string) | Complete(status: PaymentStatus)

  /** A step's new state, the effects it asks for, and what each call of
      `checkPaymentStatus` that finished in it resolved to (`None` for `null`). */
  datatype Output = Output(hook: Hook, effects: seq<Effect>, resolved: seq<Option<PaymentStatus>>)

  const EmailRequired := "Email is required"
  const InvalidEmailFormat := "Invalid email format"
  const CheckFailed := "Failed to check payment status"
  const UnknownError := "Unknown error occurred"

  const Idle := PaymentStatus(false, false, false, None, None)
  const AwaitingPayment := PaymentStatus(false, true, false, None, None)

  function Failed(message: string): PaymentStatus {
    PaymentStatus(false, false, false, Some(message), None)
  }

  /** The status a parsed reply maps to; the raw reply is kept as `data`. */
  function Mapped(reply: StatusReply): (st: PaymentStatus)
    ensures Derived(st) && st.data == Some(reply) && st.error == reply.error
    ensures st.success == reply.success && st.isPending == reply.isPending
    ensures st.shouldShowSuccess <==> reply.success && !reply.isPending
  {
    PaymentStatus(reply.success, reply.isPending, reply.success && !reply.isPending, reply.error, Some(reply))
  }

  /** The payment is complete and the caller is told. */
  predicate Completes(cfg: Config, st: PaymentStatus) {
    st.success && !st.isPending && cfg.callback.Some?
  }

  function Init(cfg: Config): (h: Hook)
    ensures h.status == Idle && h.email == cfg.initialEmail && !h.isPolling
    ensures h.inFlight == 0 && h.mounted && !h.timerArmed
  {
    Hook(Idle, cfg.initialEmail, false, false, 0, true)
  }

  /** A state update after unmount is dropped. */
  function Update(h: Hook, h': Hook): Hook {
    if h.mounted then h' else h
  }

  /** The catch block: an all-false status with the message, and polling off. */
  function Fail(h: Hook, message: string): (h': Hook)
    ensures h.mounted ==> h' == h.(status := Failed(message), isPolling := false)
    ensures !h.mounted ==> h' == h
  {
    Update(h, h.(status := Failed(message), isPolling := false))
  }

  /** The synchronous part of `checkPaymentStatus`: the two email checks, then the
      request. */
  function StartCheck(cfg: Config, h: Hook): (o: Output)
    ensures h.email == "" ==> o == Output(Fail(h, EmailRequired), [], [None])
    ensures h.email != "" && !IsValidEmail(h.email) ==> o == Output(Fail(h, InvalidEmailFormat), [], [None])
    ensures IsValidEmail(h.email) ==>
              o == Output(h.(inFlight := h.inFlight + 1), [Fetch(cfg.paymentLinkID, h.email)], [])
  {
    if h.email == "" then Output(Fail(h, EmailRequired), [], [None])
    else if !IsValidEmail(h.email) then Output(Fail(h, InvalidEmailFormat), [], [None])
    else Output(h.(inFlight := h.inFlight + 1), [Fetch(cfg.paymentLinkID, h.email)], [])
  }

  /** Polling is on and has an address to poll for. */
  predicate Active(h: Hook) {
    h.mounted && h.isPolling && h.email != ""
  }

  /** The polling effect, re-run when `isPolling` or `email` differ from `before`:
      clear the old interval; if polling with an address, check at once and set a
      new interval. A check that fails at once turns polling off, and the effect's
      next run clears the interval again. */
  function Settle(cfg: Config, before: Hook, o: Output): (r: Output)
    ensures |o.effects| <= |r.effects| <= |o.effects| + 1 && r.effects[..|o.effects|] == o.effects
    ensures |o.resolved| <= |r.resolved| <= |o.resolved| + 1 && r.resolved[..|o.resolved|] == o.resolved
    ensures r.hook.email == o.hook.email && r.hook.mounted == o.hook.mounted
  {
    var h := o.hook;
    if !h.mounted || (h.isPolling == before.isPolling && h.email == before.email) then o
    else if !Active(h) then Output(h.(timerArmed := false), o.effects, o.resolved)
    else
      var c := StartCheck(cfg, h.(timerArmed := true));
      var h' := if c.hook.isPolling then c.hook else c.hook.(timerArmed := false);
      Output(h', o.effects + c.effects, o.resolved + c.resolved)
  }

  /** The rest of `checkPaymentStatus` once its request is answered. A callback that
      throws lands in the same catch block as a failed request. */
  function Answer(cfg: Config, h: Hook, r: Reply): Output {
    match r
    case NotOk => Output(Fail(h, CheckFailed), [], [None])
    case Body(reply) =>
      var st := Mapped(reply);
      if !Completes(cfg, st) then Output(Update(h, h.(status := st)), [], [Some(st)])
      else
        match cfg.callback.value(st)
        case Returned(_) => Output(Update(h, h.(status := st, isPolling := false)), [Complete(st)], [Some(st)])
        case Threw(m) => Output(Fail(h, m), [Complete(st)], [None])
  }

  /** One event. */
  function Step(cfg: Config, h: Hook, ev: Event): Output {
    match ev
    case Register(e) =>
      if !h.mounted then Output(h, [], [])
      else if !IsValidEmail(e) then Output(h.(status := Failed(InvalidEmailFormat)), [], [])
      else Settle(cfg, h, Output(h.(email := e, isPolling := true, status := AwaitingPayment), [], []))
    case CheckNow =>
      if !h.mounted then Output(h, [], []) else Settle(cfg, h, StartCheck(cfg, h))
    case Tick =>
      if !h.timerArmed then Output(h, [], []) else Settle(cfg, h, StartCheck(cfg, h))
    case PollResponse(r) =>
      if h.inFlight == 0 then Output(h, [], [])
      else
        var h0 := h.(inFlight := h.inFlight - 1);
        Settle(cfg, h, Answer(cfg, h0, r))
    case PollFailure(m) =>
      if h.inFlight == 0 then Output(h, [], [])
      else Settle(cfg, h, Output(Fail(h.(inFlight := h.inFlight - 1), m.GetOr(UnknownError)), [], [None]))
    case Teardown =>
      Output(h.(mounted := false, timerArmed := false), [], [])
  }

  /** What holds in every reachable state: the interval is set exactly while polling
      is active, polling implies a valid address, and `shouldShowSuccess` is derived. */
  predicate Inv(h: Hook) {
    && (h.timerArmed <==> Active(h))
    && (h.isPolling ==> IsValidEmail(h.email))
    && Derived(h.status)
  }

  lemma InitInv(cfg: Config)
    ensures Inv(Init(cfg))
  {
  }

  /** Settling a state whose only possible violation is the interval restores the
      invariant. */
  lemma SettleRestores(cfg: Config, before: Hook, o: Output)
    requires Inv(before) && (o.hook.mounted ==> before.mounted)
    requires o.hook.isPolling ==> IsValidEmail(o.hook.email)
    requires Derived(o.hook.status)
    requires o.hook.mounted ==> o.hook.timerArmed == before.timerArmed
    requires !o.hook.mounted ==> !o.hook.timerArmed
    ensures Inv(Settle(cfg, before, o).hook)
  {
    var h := o.hook;
    if h.mounted && !(h.isPolling == before.isPolling && h.email == before.email) && Active(h) {
      ValidEmailNonEmpty(h.email);
    }
  }

  lemma ValidEmailNonEmpty(s: string)
    requires IsValidEmail(s)
    ensures s != ""
  {
  }

  /** Every step keeps the invariant. */
  lemma StepInv(cfg: Config, h: Hook, ev: Event)
    requires Inv(h)
    ensures Inv(Step(cfg, h, ev).hook)
  {
    match ev
    case Register(e) =>
      if h.mounted && IsValidEmail(e) {
        SettleRestores(cfg, h, Output(h.(email := e, isPolling := true, status := AwaitingPayment), [], []));
      }
    case CheckNow =>
      if h.mounted { SettleRestores(cfg, h, StartCheck(cfg, h)); }
    case Tick =>
      if h.timerArmed { SettleRestores(cfg, h, StartCheck(cfg, h)); }
    case PollResponse(r) =>
      if h.inFlight > 0 {
        SettleRestores(cfg, h, Answer(cfg, h.(inFlight := h.inFlight - 1), r));
      }
    case PollFailure(m) =>
      if h.inFlight > 0 {
        SettleRestores(cfg, h, Output(Fail(h.(inFlight := h.inFlight - 1), m.GetOr(UnknownError)), [], [None]));
      }
    case Teardown =>
  }

  /** `registerPayment` with an address the pattern rejects only reports it:
      `email` and `isPolling` are unchanged and nothing is requested. */
  lemma RegisterInvalid(cfg: Config, h: Hook, e: string)
    requires h.mounted && !IsValidEmail(e)
    ensures var o := Step(cfg, h, Register(e));
            && o.hook.status == PaymentStatus(false, false, false, Some(InvalidEmailFormat), None)
            && o.hook.email == h.email && o.hook.isPolling == h.isPolling
            && o.effects == []
  {
  }

  /** `registerPayment` with a valid address starts polling for it, shows the
      awaiting status, and — unless the same address was already being polled —
      requests a status at once and sets the interval. */
  lemma RegisterValid(cfg: Config, h: Hook, e: string)
    requires Inv(h) && h.mounted && IsValidEmail(e)
    ensures var o := Step(cfg, h, Register(e));
            && o.hook.email == e && o.hook.isPolling && o.hook.timerArmed
            && o.hook.status == AwaitingPayment
            && (h.isPolling && h.email == e ==> o.effects == [])
            && (!(h.isPolling && h.email == e) ==> o.effects == [Fetch(cfg.paymentLinkID, e)])
  {
    ValidEmailNonEmpty(e);
  }

  /** A parsed reply sets the status to the mapping of the reply, and the call
      resolves to it. Only a callback that throws changes that: its message becomes
      an all-false status, polling stops, and the call resolves to `null`. */
  lemma ResponseMapsStatus(cfg: Config, h: Hook, reply: StatusReply)
    requires Inv(h) && h.mounted && h.inFlight > 0
    ensures var o := Step(cfg, h, PollResponse(Body(reply)));
            var st := Mapped(reply);
            var threw := Completes(cfg, st) && cfg.callback.value(st).Threw?;
            && (!threw ==>
                  && o.hook.status == st
                  && o.hook.status.isPending == reply.isPending
                  && o.hook.status.shouldShowSuccess == (reply.success && !reply.isPending)
                  && o.hook.status.data == Some(reply)
                  && o.resolved == [Some(st)])
            && (threw ==>
                  && o.hook.status == PaymentStatus(false, false, false, Some(cfg.callback.value(st).message), None)
                  && !o.hook.isPolling
                  && o.resolved == [None])
  {
  }

  /** Polling stops on a reply exactly when it shows success and a callback is
      supplied; the callback is then called once with the new status. Without a
      callback, a successful reply leaves polling on. */
  lemma StopsExactlyOnCompletion(cfg: Config, h: Hook, reply: StatusReply)
    requires Inv(h) && h.mounted && h.inFlight > 0 && h.isPolling
    ensures var o := Step(cfg, h, PollResponse(Body(reply)));
            && (!o.hook.isPolling <==> reply.success && !reply.isPending && cfg.callback.Some?)
            && (reply.success && !reply.isPending && cfg.callback.Some? ==>
                  o.effects == [Complete(Mapped(reply))] && !o.hook.timerArmed)
            && (!(reply.success && !reply.isPending && cfg.callback.Some?) ==>
                  o.effects == [] && o.hook.timerArmed)
  {
  }

  /** A reply that is successful but still pending keeps polling and calls nothing. */
  lemma PendingSuccessKeepsPolling(cfg: Config, h: Hook, reply: StatusReply)
    requires Inv(h) && h.mounted && h.inFlight > 0 && h.isPolling
    requires reply.success && reply.isPending
    ensures var o := Step(cfg, h, PollResponse(Body(reply)));
            o.hook.isPolling && o.hook.timerArmed && o.effects == [] && !o.hook.status.shouldShowSuccess
  {
    StopsExactlyOnCompletion(cfg, h, reply);
  }

  /** Every failure fails closed: an all-false status carrying the message, polling
      off, the interval cleared, no request or callback, and the call resolves to
      `null`. */
  lemma FailuresStopPolling(cfg: Config, h: Hook, ev: Event, message: string)
    requires Inv(h) && h.mounted
    requires || (ev == CheckNow && h.email == "" && message == EmailRequired)
             || (ev == CheckNow && h.email != "" && !IsValidEmail(h.email) && message == InvalidEmailFormat)
             || (ev == PollResponse(NotOk) && h.inFlight > 0 && message == CheckFailed)
             || (ev.PollFailure? && h.inFlight > 0 && message == ev.message.GetOr(UnknownError))
    ensures var o := Step(cfg, h, ev);
            && o.hook.status == PaymentStatus(false, false, false, Some(message), None)
            && !o.hook.isPolling && !o.hook.timerArmed && o.effects == []
            && o.resolved == [None]
  {
  }

  /** The interval asks for a status only while polling is active, and then always
      for the current address. */
  lemma TickFetchesOnlyWhileActive(cfg: Config, h: Hook)
    requires Inv(h)
    ensures var o := Step(cfg, h, Tick);
            && (Active(h) ==> o.effects == [Fetch(cfg.paymentLinkID, h.email)] && o.hook.timerArmed)
            && (!Active(h) ==> o.effects == [] && o.hook == h)
  {
  }

  /** After unmount the state no longer changes on replies, but a late successful
      reply still calls `onPaymentComplete`: nothing guards against it. */
  lemma LateReplyStillCompletes(cfg: Config, h: Hook, reply: StatusReply)
    requires Inv(h) && h.mounted && h.inFlight > 0
    requires reply.success && !reply.isPending && cfg.callback.Some?
    ensures var gone := Step(cfg, h, Teardown).hook;
            var o := Step(cfg, gone, PollResponse(Body(reply)));
            && o.effects == [Complete(Mapped(reply))]
            && o.hook.status == h.status && o.hook.isPolling == h.isPolling
  {
  }

  /** Running a sequence of events: the final state and every effect, in order. */
  function Run(cfg: Config, h: Hook, evs: seq<Event>): (o: Output)
    decreases |evs|
  {
    if |evs| == 0 then Output(h, [], [])
    else
      var first := Step(cfg, h, evs[0]);
      var rest := Run(cfg, first.hook, evs[1..]);
      Output(rest.hook, first.effects + rest.effects, first.resolved + rest.resolved)
  }

  /** Polling is off and no interval is set. */
  predicate Stopped(h: Hook) {
    !h.isPolling && !h.timerArmed
  }

  /** Events the hook receives without its caller acting. */
  predicate Unprompted(ev: Event) {
    ev.Tick? || ev.PollResponse? || ev.PollFailure? || ev.Teardown?
  }

  /** One unprompted event leaves a stopped hook stopped and requests nothing. */
  lemma StoppedStepQuiet(cfg: Config, h: Hook, ev: Event)
    requires Stopped(h) && Unprompted(ev)
    ensures var o := Step(cfg, h, ev);
            Stopped(o.hook) && forall i :: 0 <= i < |o.effects| ==> o.effects[i].Complete?
  {
  }

  /** Once stopped, the hook stays stopped and requests nothing until its caller
      registers again or checks by hand. */
  lemma {:induction false} StoppedStaysQuiet(cfg: Config, h: Hook, evs: seq<Event>)
    requires Stopped(h)
    requires forall i :: 0 <= i < |evs| ==> Unprompted(evs[i])
    ensures var o := Run(cfg, h, evs);
            && Stopped(o.hook)
            && forall i :: 0 <= i < |o.effects| ==> o.effects[i].Complete?
    decreases |evs|
  {
    if |evs| > 0 {
      var first := Step(cfg, h, evs[0]);
      StoppedStepQuiet(cfg, h, evs[0]);
      assert forall i :: 0 <= i < |evs| - 1 ==> evs[1..][i] == evs[i + 1];
      StoppedStaysQuiet(cfg, first.hook, evs[1..]);
      var rest := Run(cfg, first.hook, evs[1..]);
      var all := first.effects + rest.effects;
      assert Run(cfg, h, evs).hook == rest.hook && Run(cfg, h, evs).effects == all;
      forall i | 0 <= i < |all| ensures all[i].Complete? {
        if i >= |first.effects| { assert all[i] == rest.effects[i - |first.effects|]; }
      }
    }
  }

  /** Two requests in flight answered "paid" call `onPaymentComplete` twice: stopping
      the polling does not cancel a request already sent. */
  lemma CallbackNotDeduplicated(cfg: Config, h: Hook, paid: StatusReply)
    requires Inv(h) && h.mounted && h.isPolling && h.inFlight >= 2
    requires cfg.callback.Some? && paid.success && !paid.isPending
    ensures var s := Step(cfg, h, PollResponse(Body(paid)));
            var t := Step(cfg, s.hook, PollResponse(Body(paid)));
            s.effects == [Complete(Mapped(paid))] && t.effects == [Complete(Mapped(paid))]
  {
  }

  /** Polling `e` with the interval set and one request out. */
  predicate Waiting(h: Hook, e: string) {
    h.mounted && h.isPolling && h.timerArmed && h.email == e && h.inFlight == 1 && Inv(h)
  }

  lemma RegisterFromIdle(cfg: Config, e: string)
    requires IsValidEmail(e)
    ensures var s := Step(cfg, Init(cfg), Register(e));
            Waiting(s.hook, e) && s.effects == [Fetch(cfg.paymentLinkID, e)]
  {
    ValidEmailNonEmpty(e);
  }

  /** A run is its first step followed by the run of the rest. */
  lemma RunCons(cfg: Config, h: Hook, evs: seq<Event>)
    requires |evs| > 0
    ensures var s := Step(cfg, h, evs[0]);
            var r := Run(cfg, s.hook, evs[1..]);
            Run(cfg, h, evs) == Output(r.hook, s.effects + r.effects, s.resolved + r.resolved)
  {
  }

  /** A run of two events and then `rest`. */
  lemma RunTwo(cfg: Config, h: Hook, a: Event, b: Event, rest: seq<Event>)
    ensures var s := Step(cfg, h, a);
            var t := Step(cfg, s.hook, b);
            var r := Run(cfg, t.hook, rest);
            && Run(cfg, h, [a, b] + rest).hook == r.hook
            && Run(cfg, h, [a, b] + rest).effects == s.effects + (t.effects + r.effects)
  {
    var all := [a, b] + rest;
    var s := Step(cfg, h, a);
    assert all[0] == a && all[1..] == [b] + rest && ([b] + rest)[1..] == rest;
    RunCons(cfg, h, all);
    RunCons(cfg, s.hook, all[1..]);
  }

  /** A "pending" answer requests nothing; the next tick requests again. */
  lemma PendingStep(cfg: Config, h: Hook, e: string, pending: StatusReply)
    requires Waiting(h, e) && pending.isPending
    ensures var s := Step(cfg, h, PollResponse(Body(pending)));
            var t := Step(cfg, s.hook, Tick);
            s.effects == [] && t.effects == [Fetch(cfg.paymentLinkID, e)] && Waiting(t.hook, e)
  {
  }

  /** Answering the request out with "pending" and letting the interval fire leaves
      one request out again, after one request. */
  lemma PendingThenTick(cfg: Config, h: Hook, e: string, pending: StatusReply, rest: seq<Event>)
    requires Waiting(h, e) && pending.isPending
    ensures var t := Run(cfg, h, [PollResponse(Body(pending)), Tick]).hook;
            var r := Run(cfg, t, rest);
            && Waiting(t, e)
            && Run(cfg, h, [PollResponse(Body(pending)), Tick] + rest).hook == r.hook
            && Run(cfg, h, [PollResponse(Body(pending)), Tick] + rest).effects
               == [Fetch(cfg.paymentLinkID, e)] + r.effects
  {
    PendingStep(cfg, h, e, pending);
    RunTwo(cfg, h, PollResponse(Body(pending)), Tick, rest);
    RunTwo(cfg, h, PollResponse(Body(pending)), Tick, []);
    assert [PollResponse(Body(pending)), Tick] + [] == [PollResponse(Body(pending)), Tick];
  }

  /** Answering the request out with "paid" calls back once and stops; success is
      shown unless the callback throws. */
  lemma PaidStops(cfg: Config, h: Hook, e: string, paid: StatusReply)
    requires Waiting(h, e) && cfg.callback.Some? && paid.success && !paid.isPending
    ensures var o := Run(cfg, h, [PollResponse(Body(paid))]);
            && o.effects == [Complete(Mapped(paid))] && Stopped(o.hook)
            && (o.hook.status.shouldShowSuccess <==> cfg.callback.value(Mapped(paid)).Returned?)
  {
    RunCons(cfg, h, [PollResponse(Body(paid))]);
  }

  /** A registration answered twice by "pending" and then by "paid": one request at
      once, one per tick, and exactly one callback, after which polling is off. */
  lemma PendingPendingPaid(cfg: Config, e: string, pending: StatusReply, paid: StatusReply)
    requires IsValidEmail(e) && cfg.callback.Some?
    requires pending.isPending
    requires paid.success && !paid.isPending
    ensures var o := Run(cfg, Init(cfg), [Register(e), PollResponse(Body(pending)), Tick,
                                          PollResponse(Body(pending)), Tick, PollResponse(Body(paid))]);
            && o.effects == [Fetch(cfg.paymentLinkID, e), Fetch(cfg.paymentLinkID, e),
                             Fetch(cfg.paymentLinkID, e), Complete(Mapped(paid))]
            && Stopped(o.hook)
            && (o.hook.status.shouldShowSuccess <==> cfg.callback.value(Mapped(paid)).Returned?)
  {
    var round := [PollResponse(Body(pending)), Tick];
    var last := [PollResponse(Body(paid))];
    var evs := [Register(e)] + (round + (round + last));
    assert evs == [Register(e), PollResponse(Body(pending)), Tick, PollResponse(Body(pending)), Tick, PollResponse(Body(paid))];
    var fetch := Fetch(cfg.paymentLinkID, e);
    var s1 := Step(cfg, Init(cfg), Register(e));
    var t1 := Run(cfg, s1.hook, round).hook;
    var t2 := Run(cfg, t1, round).hook;
    var o3 := Run(cfg, t2, last);
    assert Run(cfg, t1, round + last).hook == o3.hook && Run(cfg, t1, round + last).effects == [fetch] + o3.effects by {
      PendingThenTick(cfg, s1.hook, e, pending, round + last);
      PendingThenTick(cfg, t1, e, pending, last);
    }
    assert Run(cfg, s1.hook, round + (round + last)).hook == o3.hook
        && Run(cfg, s1.hook, round + (round + last)).effects == [fetch] + ([fetch] + o3.effects) by {
      PendingThenTick(cfg, s1.hook, e, pending, round + last);
    }
    assert Run(cfg, Init(cfg), evs).hook == o3.hook
        && Run(cfg, Init(cfg), evs).effects == [fetch] + ([fetch] + ([fetch] + o3.effects)) by {
      RegisterFromIdle(cfg, e);
      RunCons(cfg, Init(cfg), evs);
      assert evs[1..] == round + (round + last);
    }
    assert o3.effects == [Complete(Mapped(paid))] && Stopped(o3.hook)
        && (o3.hook.status.shouldShowSuccess <==> cfg.callback.value(Mapped(paid)).Returned?) by {
      PendingThenTick(cfg, s1.hook, e, pending, round + last);
      PendingThenTick(cfg, t1, e, pending, last);
      PaidStops(cfg, t2, e, paid);
    }
  }
}
