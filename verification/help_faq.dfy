/** The help modal: the FAQ accordion and the support-ticket form. */
module HelpFaq {

  import opened Common
  import opened Text

  /** The accordion keeps at most one question open: the index of that
      question, or `None`. */
  function ToggleFaq(open: Option<nat>, index: nat): (r: Option<nat>)
    ensures r == Some(index) <==> open != Some(index)
    ensures r != Some(index) ==> r == None
  {
    if open == Some(index) then None else Some(index)
  }

  /** Clicking the same question twice closes it again, whatever was open
      before; clicking another question moves the open answer there. */
  lemma ToggleFaqTwice(open: Option<nat>, i: nat, j: nat)
    ensures ToggleFaq(ToggleFaq(open, i), i) == (if open == Some(i) then Some(i) else None)
    ensures i != j ==> ToggleFaq(ToggleFaq(open, i), j) == Some(j)
  {
  }

  /** What the last submission showed. */
  datatype SendStatus = NoStatus | SentOk | SendError

  datatype SupportForm = SupportForm(issueText: string, issueType: string, sending: bool, status: SendStatus)

  const Initial := SupportForm("", "General Inquiry", false, NoStatus)

  const GuestEmail := "guest@ai-mall.in"

  /** The signed-in user, as far as the form needs it. */
  datatype Sender = Sender(email: Option<string>, id: Option<string>)

  /** The body posted to the support endpoint; `userId` is `null` for a
      guest. */
  datatype Payload = Payload(email: string, issueType: string, message: string, userId: Option<string>)

  /** The button is disabled while sending and while the text is blank. */
  predicate SendDisabled(f: SupportForm)
  {
    f.sending || IsBlank(f.issueText)
  }

  /** The payload for a form and a possibly absent user. */
  function PayloadFor(f: SupportForm, user: Option<Sender>): (p: Payload)
    ensures p.message == f.issueText && p.issueType == f.issueType
    ensures user.Some? && Truthy(user.value.email) ==> p.email == user.value.email.value
    ensures !(user.Some? && Truthy(user.value.email)) ==> p.email == GuestEmail
    ensures p.userId.Some? <==> user.Some? && Truthy(user.value.id)
    ensures p.userId.Some? ==> p.userId == user.value.id
  {
    var email := if user.Some? then OrElse(user.value.email, GuestEmail) else GuestEmail;
    var userId := if user.Some? && Truthy(user.value.id) then user.value.id else None;
    Payload(email, f.issueType, f.issueText, userId)
  }

  /** `handleSupportSubmit`, up to the `finally`: a blank text sends nothing;
      otherwise the ticket is posted and the outcome decides the status.
      Returns the form afterwards and the payload posted, if any. */
  function Submit(f: SupportForm, user: Option<Sender>, outcome: ApiOutcome): (r: (SupportForm, Option<Payload>))
    ensures IsBlank(f.issueText) ==> r == (f, None)
    ensures !IsBlank(f.issueText) ==> r.1 == Some(PayloadFor(f, user)) && !r.0.sending
    ensures !IsBlank(f.issueText) && outcome == Succeeded ==> r.0.status == SentOk && r.0.issueText == []
    ensures !IsBlank(f.issueText) && outcome == Failed ==> r.0.status == SendError && r.0.issueText == f.issueText
    ensures r.0.issueType == f.issueType
  {
    if IsBlank(f.issueText) then (f, None)
    else
      var after := match outcome
        case Succeeded => f.(status := SentOk, issueText := "")
        case Failed => f.(status := SendError);
      (after.(sending := false), Some(PayloadFor(f, user)))
  }

  /** Nothing but a non-blank description is ever posted, and a posted ticket
      always carries an address to answer. */
  lemma PostedTicketsAreMeaningful(f: SupportForm, user: Option<Sender>, outcome: ApiOutcome)
    ensures Submit(f, user, outcome).1.Some? ==>
      !IsBlank(Submit(f, user, outcome).1.value.message) && Submit(f, user, outcome).1.value.email != []
  {
  }

  /** After a successful ticket the button is disabled, so the same text
      cannot be sent twice; after a failure it stays enabled for a retry. */
  lemma SubmitThenButton(f: SupportForm, user: Option<Sender>, outcome: ApiOutcome)
    requires !SendDisabled(f)
    ensures outcome == Succeeded ==> SendDisabled(Submit(f, user, outcome).0)
    ensures outcome == Failed ==> !SendDisabled(Submit(f, user, outcome).0)
  {
  }

  /** The success banner is dismissed three seconds later. */
  function StatusTimeout(f: SupportForm): (r: SupportForm)
    ensures r.status == NoStatus
    ensures r.(status := f.status) == f
  {
    f.(status := NoStatus)
  }
}
