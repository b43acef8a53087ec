/** The contact form: the field record, the submitting flag and the status
    banner. The two `setTimeout` continuations of a submission are explicit
    timer events; the counters record how many of each are pending. */
module Contact {

  datatype Field = Name | Email | Subject | Message

  datatype FormData = FormData(name: string, email: string, subject: string, message: string)

  function Get(f: FormData, field: Field): string
  {
    match field
    case Name => f.name
    case Email => f.email
    case Subject => f.subject
    case Message => f.message
  }

  const EmptyForm := FormData("", "", "", "")

  /** `handleChange`: the input named `field` takes the new value, the other
      three fields keep theirs. */
  function HandleChange(f: FormData, field: Field, value: string): (r: FormData)
    ensures Get(r, field) == value
    ensures forall other :: other != field ==> Get(r, other) == Get(f, other)
  {
    match field
    case Name => f.(name := value)
    case Email => f.(email := value)
    case Subject => f.(subject := value)
    case Message => f.(message := value)
  }

  /** `Failed` is the source's 'error' status. */
  datatype Status = Idle | Success | Failed

  datatype Form = Form(
    data: FormData,
    isSubmitting: bool,
    status: Status,
    submitTimers: nat,
    expiryTimers: nat)

  function Initial(): Form
  {
    Form(EmptyForm, false, Idle, 0, 0)
  }

  /** `handleSubmit`: raises the submitting flag and starts the simulated
      request's timer; fields and status stay as they are. */
  function HandleSubmit(s: Form): (r: Form)
    ensures r.isSubmitting && r.submitTimers == s.submitTimers + 1
    ensures r.(isSubmitting := s.isSubmitting, submitTimers := s.submitTimers) == s
  {
    s.(isSubmitting := true, submitTimers := s.submitTimers + 1)
  }

  /** The request timer fires: the flag drops, the status becomes success,
      all four fields are emptied, and the status-expiry timer starts. */
  function SubmitDone(s: Form): (r: Form)
    requires s.submitTimers > 0
    ensures !r.isSubmitting && r.status == Success
    ensures forall field :: Get(r.data, field) == ""
    ensures r.submitTimers == s.submitTimers - 1 && r.expiryTimers == s.expiryTimers + 1
  {
    Form(EmptyForm, false, Success, s.submitTimers - 1, s.expiryTimers + 1)
  }

  /** The expiry timer fires: the status returns to idle. */
  function StatusExpire(s: Form): (r: Form)
    requires s.expiryTimers > 0
    ensures r.status == Idle && r.expiryTimers == s.expiryTimers - 1
    ensures r.(status := s.status, expiryTimers := s.expiryTimers) == s
  {
    s.(status := Idle, expiryTimers := s.expiryTimers - 1)
  }

  /** The submit button is disabled while a submission is in flight; a
      form whose submit button is disabled cannot be submitted. */
  predicate SubmitDisabled(s: Form)
  {
    s.isSubmitting
  }

  predicate SuccessBannerShown(s: Form)
  {
    s.status == Success
  }

  predicate ErrorBannerShown(s: Form)
  {
    s.status == Failed
  }

  datatype Event = Change(field: Field, value: string) | Submit | SubmitTimer | ExpiryTimer

  /** One event; a timer event with no timer pending does nothing. */
  function Step(s: Form, e: Event): Form
  {
    match e
    case Change(field, value) => s.(data := HandleChange(s.data, field, value))
    case Submit => if SubmitDisabled(s) then s else HandleSubmit(s)
    case SubmitTimer => if s.submitTimers > 0 then SubmitDone(s) else s
    case ExpiryTimer => if s.expiryTimers > 0 then StatusExpire(s) else s
  }

  function Steps(s: Form, es: seq<Event>): Form
    decreases |es|
  {
    if |es| == 0 then s else Steps(Step(s, es[0]), es[1..])
  }

  /** At most one request is in flight, exactly while the flag is up; the
      success banner always has an expiry pending; and nothing ever sets
      the error status. */
  predicate Consistent(s: Form)
  {
    && s.status != Failed
    && s.submitTimers <= 1
    && (s.isSubmitting <==> s.submitTimers == 1)
    && (s.status == Success ==> s.expiryTimers > 0)
  }

  lemma StepKeepsConsistent(s: Form, e: Event)
    requires Consistent(s)
    ensures Consistent(Step(s, e))
  {
  }

  lemma {:induction false} StepsKeepConsistent(s: Form, es: seq<Event>)
    requires Consistent(s)
    ensures Consistent(Steps(s, es))
    decreases |es|
  {
    if |es| > 0 {
      StepKeepsConsistent(s, es[0]);
      StepsKeepConsistent(Step(s, es[0]), es[1..]);
    }
  }

  /** Whatever the user types and however the timers interleave, only
      'idle' and 'success' are ever reached: the error banner never shows. */
  lemma {:induction false} ErrorBannerDead(es: seq<Event>)
    ensures !ErrorBannerShown(Steps(Initial(), es))
    ensures Steps(Initial(), es).status in {Idle, Success}
  {
    StepsKeepConsistent(Initial(), es);
  }

  /** A full submission: submit, the request timer, the expiry timer. The
      form ends empty and idle, whatever was typed. */
  lemma SubmissionCycle(s: Form)
    requires Consistent(s) && !s.isSubmitting && s.expiryTimers == 0
    ensures var r := Steps(s, [Submit, SubmitTimer, ExpiryTimer]);
      r == Form(EmptyForm, false, Idle, 0, 0)
  {
    var s1 := Step(s, Submit);
    var s2 := Step(s1, SubmitTimer);
    var s3 := Step(s2, ExpiryTimer);
    assert Steps(s, [Submit, SubmitTimer, ExpiryTimer]) == Steps(s1, [SubmitTimer, ExpiryTimer]);
    assert Steps(s1, [SubmitTimer, ExpiryTimer]) == Steps(s2, [ExpiryTimer]);
    assert Steps(s2, [ExpiryTimer]) == Steps(s3, []);
  }

  /** A second submit while one is in flight changes nothing. */
  lemma SubmitWhileSubmitting(s: Form)
    requires s.isSubmitting
    ensures Step(s, Submit) == s
  {
  }
}
