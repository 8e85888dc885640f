/** The public contact form: the three fields, the status line shown under
    them, and the submitting flag, driven by one submission attempt. The
    network answer and the clock are inputs; the request the attempt sends
    is part of its result. */
module Submission {
  import opened Records

  datatype FormData = FormData(name: string, email: string, message: string)

  const EmptyForm := FormData("", "", "")

  /** The status `type`: "", "error" or "success". */
  datatype StatusKind = NoKind | Error | Success

  datatype Status = Status(kind: StatusKind, text: string)

  const Cleared := Status(NoKind, "")

  datatype FormState = FormState(data: FormData, status: Status, submitting: bool)

  /** The state the page starts in. */
  const Initial := FormState(EmptyForm, Cleared, false)

  /** The store endpoint and key, read once from the environment; an unset
      variable and an empty one are both written "". */
  datatype Config = Config(url: string, key: string)

  predicate Configured(c: Config) {
    c.url != "" && c.key != ""
  }

  /** How the create request ends: an ok response; a non-ok response whose
      error body carries `message` ("" when that field is missing or falsy,
      its string conversion when it is some other truthy value); or an
      exception with its message. A truthy `message` whose string conversion
      is empty (an empty array, say) is an error with an empty message, so
      it is written `Threw("")`. */
  datatype Response = Ok | NotOk(message: string) | Threw(cause: string)

  /** The state after an attempt and the requests it sent, in order. */
  datatype Attempt = Attempt(state: FormState, sent: seq<Request>)

  const ConfigErrorText := "Configuration error. Please check Supabase credentials."
  const SuccessText := "Message sent successfully! I'll get back to you soon."
  const FallbackCause := "Failed to send message"
  const FailurePrefix := "Failed to send message: "
  const FailureSuffix := ". Please try emailing me directly."

  /** The error status text shown for a failed send. */
  function FailureText(cause: string): string {
    FailurePrefix + cause + FailureSuffix
  }

  /** Reads the cause back out of an error status text, if it is one. */
  function CauseOf(t: string): Option<string> {
    if |t| >= |FailurePrefix| + |FailureSuffix|
       && t[..|FailurePrefix|] == FailurePrefix
       && t[|t| - |FailureSuffix|..] == FailureSuffix
    then Some(t[|FailurePrefix|..|t| - |FailureSuffix|])
    else None
  }

  /** The failure text embeds its cause recoverably, and neither the
      configuration error nor the success text is mistaken for one. */
  lemma CauseRoundTrip(cause: string)
    ensures CauseOf(FailureText(cause)) == Some(cause)
    ensures CauseOf(ConfigErrorText) == None
    ensures CauseOf(SuccessText) == None
  {
  }

  /** The message of the error the catch block receives. A non-ok answer
      always yields a non-empty cause: the body's message when it has one,
      and the fallback exactly when it is missing or empty. */
  function Cause(resp: Response): (c: string)
    requires !resp.Ok?
    ensures resp.NotOk? ==> c != ""
    ensures resp.NotOk? && resp.message != "" ==> c == resp.message
    ensures resp.NotOk? && resp.message == "" ==> c == FallbackCause
    ensures resp.Threw? ==> c == resp.cause
  {
    match resp
    case NotOk(m) => if m == "" then FallbackCause else m
    case Threw(c) => c
  }

  /** The form can be submitted: the button is enabled (not submitting) and
      the browser's `required` check passes (no field is empty). */
  predicate CanSubmit(s: FormState) {
    && !s.submitting
    && s.data.name != ""
    && s.data.email != ""
    && s.data.message != ""
  }

  /** The state while the create request is in flight: the flag is raised
      and the status cleared before anything else happens. */
  function Begin(s: FormState): (r: FormState)
    ensures r.submitting && r.status == Cleared && r.data == s.data
    ensures !CanSubmit(r)
  {
    s.(submitting := true, status := Cleared)
  }

  /** The rest of the handler, from the configuration check on. */
  function Settle(s: FormState, cfg: Config, now: Timestamp, resp: Response): Attempt {
    if !Configured(cfg) then
      Attempt(s.(status := Status(Error, ConfigErrorText), submitting := false), [])
    else
      var req := Create(Payload(s.data.name, s.data.email, s.data.message, now));
      match resp
      case Ok => Attempt(FormState(EmptyForm, Status(Success, SuccessText), false), [req])
      case _ => Attempt(s.(status := Status(Error, FailureText(Cause(resp))), submitting := false), [req])
  }

  /** One submission attempt with the clock reading `now` and the store's
      answer `resp` (ignored when no request is sent). */
  function Submit(s: FormState, cfg: Config, now: Timestamp, resp: Response): (a: Attempt)
    requires CanSubmit(s)
    // every exit path lowers the flag
    ensures !a.state.submitting
    // a missing endpoint or key is reported before any request is made
    ensures !Configured(cfg) ==>
      a.sent == [] && a.state.data == s.data && a.state.status == Status(Error, ConfigErrorText)
    // otherwise exactly one create request carries the three fields and the stamp
    ensures Configured(cfg) ==>
      a.sent == [Create(Payload(s.data.name, s.data.email, s.data.message, now))]
    ensures Configured(cfg) && resp.Ok? ==>
      a.state.data == EmptyForm && a.state.status == Status(Success, SuccessText)
    // a failed send keeps the fields and reports its cause
    ensures Configured(cfg) && !resp.Ok? ==>
      && a.state.data == s.data
      && a.state.status.kind == Error
      && CauseOf(a.state.status.text) == Some(Cause(resp))
  {
    CauseRoundTrip(if resp.Ok? then "" else Cause(resp));
    Settle(Begin(s), cfg, now, resp)
  }

  /** Pressing the send button. While submitting the button is disabled and
      with an empty field the browser refuses the form: nothing happens. */
  function Press(s: FormState, cfg: Config, now: Timestamp, resp: Response): (a: Attempt)
    ensures !CanSubmit(s) ==> a.state == s && a.sent == []
    ensures CanSubmit(s) ==> a == Submit(s, cfg, now, resp)
    ensures |a.sent| <= 1
  {
    if CanSubmit(s) then Submit(s, cfg, now, resp) else Attempt(s, [])
  }

  /** On a freshly loaded page the fields are empty, so pressing send does
      nothing until all three have been filled in. */
  lemma FreshPageCannotSubmit(cfg: Config, now: Timestamp, resp: Response)
    ensures !CanSubmit(Initial)
    ensures Press(Initial, cfg, now, resp) == Attempt(Initial, [])
  {
  }

  /** A second press while the first is in flight sends nothing more. */
  lemma NoDoubleSubmit(s: FormState, cfg: Config, now: Timestamp, resp: Response)
    ensures Press(Begin(s), cfg, now, resp) == Attempt(Begin(s), [])
  {
  }

  /** A failed attempt leaves the form ready to be sent again unchanged;
      a successful one leaves it empty, so it cannot be sent again as is. */
  lemma OutcomeAndResubmission(s: FormState, cfg: Config, now: Timestamp, resp: Response)
    requires CanSubmit(s)
    ensures CanSubmit(Submit(s, cfg, now, resp).state) <==> !(Configured(cfg) && resp.Ok?)
  {
  }
}
