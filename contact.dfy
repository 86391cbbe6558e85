/**
 * The contact section's submit flow: the mail fallback without a form id,
 * validation, the rate limiter (3 sends per 60 seconds), and the request
 * whose outcome decides between success and error.
 *
 * The asynchronous `fetch` splits `handleSubmit` in two: `Submit` runs up to
 * the request, `Complete` runs when its outcome is known.
 */
module ContactSection {
  import Wrappers
  import Validations
  import RateLimit

  datatype Status = Idle | Sending | Success | Error

  /** What the request ended with: an ok response, another response, or a throw. */
  datatype Outcome = Ok | NotOk | Thrown

  /** Where one call of `handleSubmit` stopped. */
  datatype SubmitStep = MailFallback | Invalid | RateLimited | Sent

  const MaxRequests: nat := 3
  const WindowMs: int := 60000

  class ContactForm {
    var status: Status
    var fieldErrors: map<Validations.Field, string>
    /** `FORMSPREE_ID`, validated once when the module loads. */
    const formspreeId: Wrappers.Option<string>
    const limiter: RateLimit.RateLimiter

    ghost predicate Valid()
      reads this, limiter
    {
      limiter.Valid() && limiter.maxRequests == MaxRequests && limiter.windowMs == WindowMs
    }

    constructor (env: Wrappers.Option<string>, ghost mountedAt: int)
      ensures Valid()
      ensures status == Idle && fieldErrors == map[]
      ensures formspreeId == Validations.ValidatedFormspreeId(env)
      ensures fresh(limiter) && limiter.timestamps == [] && limiter.retryCountdown == 0 && limiter.clock == mountedAt
    {
      status := Idle;
      fieldErrors := map[];
      formspreeId := Validations.ValidatedFormspreeId(env);
      limiter := new RateLimit.RateLimiter(MaxRequests, WindowMs, mountedAt);
    }

    /** `isBusy`: the submit button is disabled. */
    predicate IsBusy()
      reads this, limiter
    {
      status == Sending || limiter.retryCountdown > 0
    }

    /** `handleSubmit` up to the request. */
    method Submit(raw: Validations.ContactInput, isEmail: string -> bool, now: int) returns (step: SubmitStep)
      requires Valid() && now >= limiter.clock
      modifies this, limiter
      ensures Valid()
      ensures step == MailFallback <==> formspreeId.None?
      ensures step == Invalid <==> formspreeId.Some? && Validations.ParseContact(raw, isEmail).Failure?
      ensures step == MailFallback ==>
                status == old(status) && fieldErrors == old(fieldErrors) && unchanged(limiter)
      ensures step == Invalid ==>
                status == old(status) && unchanged(limiter) &&
                fieldErrors == Validations.FieldErrorsOf(Validations.ParseContact(raw, isEmail).issues)
      ensures step == Sent || step == RateLimited ==>
                fieldErrors == map[] && limiter.clock == now &&
                limiter.timestamps ==
                  RateLimit.Retained(old(limiter.timestamps), now, WindowMs) + (if step == Sent then [now] else []) &&
                (step == Sent <==> old(limiter.Allows(now)))
      ensures step == Sent ==>
                status == Sending && limiter.retryCountdown == old(limiter.retryCountdown) &&
                limiter.history == old(limiter.history) + [now]
      ensures step == RateLimited ==>
                status == old(status) && IsBusy() &&
                limiter.history == old(limiter.history) && limiter.CountdownStarted(now)
    {
      if formspreeId.None? {
        // handleEmailClick(): the browser navigates to a mailto: address.
        return MailFallback;
      }
      var result := Validations.ParseContact(raw, isEmail);
      if result.Failure? {
        fieldErrors := Validations.GetFieldErrors(result.issues);
        return Invalid;
      }
      step := Dispatch(now);
    }

    /** `handleSubmit` after a successful parse: the field errors are cleared,
        then the rate-limit check, then `'sending'` when it passes. */
    method Dispatch(now: int) returns (step: SubmitStep)
      requires Valid() && now >= limiter.clock
      modifies this`status, this`fieldErrors, limiter
      ensures Valid() && fieldErrors == map[] && limiter.clock == now
      ensures step == Sent || step == RateLimited
      ensures limiter.timestamps ==
                RateLimit.Retained(old(limiter.timestamps), now, WindowMs) + (if step == Sent then [now] else [])
      ensures step == Sent <==> old(limiter.Allows(now))
      ensures step == Sent ==>
                status == Sending && limiter.retryCountdown == old(limiter.retryCountdown) &&
                limiter.history == old(limiter.history) + [now]
      ensures step == RateLimited ==>
                status == old(status) && IsBusy() &&
                limiter.history == old(limiter.history) && limiter.CountdownStarted(now)
    {
      fieldErrors := map[];
      var allowed := limiter.CheckRateLimit(now);
      if !allowed {
        assert |limiter.timestamps| >= MaxRequests;
        return RateLimited;
      }
      status := Sending;
      return Sent;
    }

    /** `handleSubmit` after the request: success only on an ok response; the
        form is reset (`reset`) only then. */
    method Complete(outcome: Outcome) returns (reset: bool)
      modifies this`status
      ensures status == (if outcome == Ok then Success else Error)
      ensures reset <==> outcome == Ok
    {
      match outcome
      case Ok =>
        status := Success;
        reset := true;
      case NotOk =>
        status := Error;
        reset := false;
      case Thrown =>
        status := Error;
        reset := false;
    }

    /** `handleClearError(field)`: only that field loses its message. */
    method ClearError(field: Validations.Field)
      modifies this`fieldErrors
      ensures field !in fieldErrors
      ensures forall f :: f != field ==> (f in fieldErrors <==> f in old(fieldErrors))
      ensures forall f :: f != field && f in fieldErrors ==> fieldErrors[f] == old(fieldErrors)[f]
    {
      fieldErrors := fieldErrors - {field};
    }

    /** The "send a new message" button of the success panel. */
    method StartNewMessage()
      modifies this`status
      ensures status == Idle
    {
      status := Idle;
    }

    /** The limiter's one-second countdown tick. */
    method Tick()
      requires Valid()
      modifies limiter`retryCountdown
      ensures Valid()
      ensures old(limiter.retryCountdown) > 0 ==> limiter.retryCountdown == old(limiter.retryCountdown) - 1
      ensures old(limiter.retryCountdown) <= 0 ==> limiter.retryCountdown == old(limiter.retryCountdown)
    {
      limiter.Tick();
    }
  }
}
