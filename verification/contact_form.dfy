/**
  The contact form's submit handler: validation of the three fields, the
  per-field error texts, and the outcome of a submission — simulated while
  the endpoint is still the placeholder, otherwise decided by the reply to
  the POST request. The reply (or the failure of the request) is an input.
 */
module ContactForm {
  import opened Text
  import opened EmailPattern

  datatype Option<T> = None | Some(value: T)

  /** The validated fields, as the `data-for` attribute of an error element names them. */
  datatype Field = Name | Email | Message

  const AllFields: set<Field> := {Name, Email, Message}

  const NameMinLength := 2
  const MessageMinLength := 10

  /** The text `showError` writes next to a failing field. */
  function ErrorText(f: Field): string {
    match f
    case Name => "Please enter your name (2+ chars)."
    case Email => "Please enter a valid email."
    case Message => "Message must be at least 10 characters."
  }

  /** An endpoint containing this marker has not been configured yet. */
  const PlaceholderMarker := "your-form-id"
  /** The endpoint the script ships with. */
  const ShippedEndpoint := "https://formspree.io/f/your-form-id"

  const SimulatedNotice :=
    "Simulated send: replace FORM_ENDPOINT in script.js with your Formspree endpoint to enable real submission."
  const SimulatedThanks := "Thanks! Your message has been simulated as sent."
  const SendingText := "Sending..."
  const SentThanks := "Thanks! Your message has been sent."
  const FailureFallback := "Submission failed. Try again later."
  const NetworkErrorText := "Network error. Check your connection and try again."

  /** The raw values of the form's `name`, `email` and `message` controls. */
  datatype FormInput = FormInput(name: string, email: string, message: string)

  /** The JSON body of the POST request. */
  datatype Payload = Payload(name: string, email: string, message: string, page: string)

  /** The body of a non-ok reply as `res.json()` hands it over, an unreadable
      body having been replaced by `{}`: the JSON value `null`, whose `error`
      member cannot be read, or any other value with its `error` member (`None`
      when the body is not JSON, not an object, or has no such member, and
      also when the member is falsy without being a string — `null`, `false`,
      `0` — since `data.error || fallback` then shows the fallback too). */
  datatype ErrorBody = JsonNull | ErrorMember(error: Option<string>)

  /** An HTTP reply: `ok`, or not `ok` with its body. */
  datatype Reply = Ok | NotOk(body: ErrorBody)

  /** What `fetch` produced: a reply, or a thrown error. */
  datatype Transport = Answered(reply: Reply) | Threw

  /** What a submit event does after validation: the successive texts of the
      `formSuccess` element (starting from the one `clearErrors` leaves),
      whether `form.reset()` ran, and the request handed to `fetch`, if any. */
  datatype Outcome = Outcome(statusTrace: seq<string>, formReset: bool, request: Option<Payload>)
  {
    /** The text the status element is left showing. */
    function FinalStatus(): string {
      if statusTrace == [] then "" else statusTrace[|statusTrace| - 1]
    }
  }

  /** The outcome of one submit event: the text of each field's error element,
      and what happened after validation. */
  datatype Submission = Submission(errorTexts: map<Field, string>, outcome: Outcome)

  /** The outcome of a submission that failed validation. */
  const Aborted := Outcome([""], false, None)

  /** Reference rule for each field, stated on the trimmed value. The length
      rules are their own reference: the handler's check is the same comparison.
      The email rule is the shape of the regular expression, which the handler
      decides through `EmailTest`. */
  ghost predicate Accepts(input: FormInput, f: Field) {
    match f
    case Name => |Trim(input.name)| >= NameMinLength
    case Email => MatchesPattern(Trim(input.email))
    case Message => |Trim(input.message)| >= MessageMinLength
  }

  ghost predicate AllAccepted(input: FormInput) {
    Accepts(input, Name) && Accepts(input, Email) && Accepts(input, Message)
  }

  /** The handler's check of one field. */
  function Passes(input: FormInput, f: Field): (ok: bool)
    ensures ok <==> Accepts(input, f)
  {
    match f
    case Name => |Trim(input.name)| >= NameMinLength
    case Email => EmailTest(Trim(input.email))
    case Message => |Trim(input.message)| >= MessageMinLength
  }

  /** The three checks of the handler. Each runs regardless of the others, so
      every failing field is reported. */
  function FailingFields(input: FormInput): (bad: set<Field>)
    ensures bad <= AllFields
    ensures forall f :: f in bad <==> !Accepts(input, f)
  {
    set f | f in AllFields && !Passes(input, f)
  }

  /** `data.error || fallback`: the server's message when it is a non-empty
      string, otherwise the generic failure text. */
  function RejectionText(error: Option<string>): (t: string)
    ensures t != ""
    ensures error.Some? && error.value != "" ==> t == error.value
    ensures error.None? || error.value == "" ==> t == FailureFallback
  {
    match error
    case Some(text) => if text != "" then text else FailureFallback
    case None => FailureFallback
  }

  /** What `clearErrors` followed by one `showError` per failing field leaves
      in the error elements. */
  function ErrorTexts(bad: set<Field>): (m: map<Field, string>)
    ensures m.Keys == AllFields
    ensures forall f :: f in AllFields ==> (m[f] != "" <==> f in bad)
  {
    map f | f in AllFields :: if f in bad then ErrorText(f) else ""
  }

  /** The request body built from the trimmed field values and the page address. */
  function TrimmedPayload(input: FormInput, page: string): Payload {
    Payload(Trim(input.name), Trim(input.email), Trim(input.message), page)
  }

  /** The handler after validation succeeded: simulate while the endpoint is the
      placeholder, otherwise send `payload` and report what `fetch` produced.
      Reading `error` from a `null` body throws into the same handler as a
      failed request. */
  function Send(payload: Payload, endpoint: string, transport: Transport): (o: Outcome)
    ensures o.request.Some? <==> !Contains(endpoint, PlaceholderMarker)
    ensures o.request.Some? ==> o.request.value == payload
    ensures o.formReset <==> Contains(endpoint, PlaceholderMarker) || transport == Answered(Ok)
    ensures Contains(endpoint, PlaceholderMarker) ==> o.statusTrace == ["", SimulatedNotice, SimulatedThanks]
    ensures !Contains(endpoint, PlaceholderMarker) ==>
              && |o.statusTrace| == 3 && o.statusTrace[..2] == ["", SendingText]
              && o.FinalStatus() == match transport
                                    case Threw => NetworkErrorText
                                    case Answered(Ok) => SentThanks
                                    case Answered(NotOk(JsonNull)) => NetworkErrorText
                                    case Answered(NotOk(ErrorMember(error))) => RejectionText(error)
  {
    if Contains(endpoint, PlaceholderMarker) then
      Outcome(["", SimulatedNotice, SimulatedThanks], true, None)
    else
      match transport
      case Threw => Outcome(["", SendingText, NetworkErrorText], false, Some(payload))
      case Answered(Ok) => Outcome(["", SendingText, SentThanks], true, Some(payload))
      case Answered(NotOk(JsonNull)) => Outcome(["", SendingText, NetworkErrorText], false, Some(payload))
      case Answered(NotOk(ErrorMember(error))) => Outcome(["", SendingText, RejectionText(error)], false, Some(payload))
  }

  /** After a send the status is never left empty, and the form is reset only
      once a thank-you text is showing. */
  lemma ResetOnlyAfterThanks(payload: Payload, endpoint: string, transport: Transport)
    ensures var o := Send(payload, endpoint, transport);
            && o.FinalStatus() != ""
            && (o.formReset ==> o.FinalStatus() == SimulatedThanks || o.FinalStatus() == SentThanks)
  {
  }

  /** One submit event: clear the error and status texts, run all three
      checks, and only if every field passes go on to `Send`. */
  function Submit(input: FormInput, endpoint: string, page: string, transport: Transport): (s: Submission)
    ensures s.errorTexts.Keys == AllFields
    ensures s.errorTexts[Name] == (if Accepts(input, Name) then "" else ErrorText(Name))
    ensures s.errorTexts[Email] == (if Accepts(input, Email) then "" else ErrorText(Email))
    ensures s.errorTexts[Message] == (if Accepts(input, Message) then "" else ErrorText(Message))
    ensures !AllAccepted(input) ==> s.outcome == Aborted
    ensures AllAccepted(input) ==> s.outcome == Send(TrimmedPayload(input, page), endpoint, transport)
  {
    var bad := FailingFields(input);
    Submission(ErrorTexts(bad),
               if bad != {} then Aborted else Send(TrimmedPayload(input, page), endpoint, transport))
  }

  /** An invalid submission sends nothing, simulates nothing, leaves the status
      text cleared and keeps what was typed, whatever the endpoint or the
      network would have done; and at least one error text is shown. */
  lemma InvalidSubmissionIsInert(input: FormInput, endpoint: string, page: string, transport: Transport)
    requires !AllAccepted(input)
    ensures var s := Submit(input, endpoint, page, transport);
            && s.outcome.FinalStatus() == "" && !s.outcome.formReset && s.outcome.request == None
            && exists f :: f in AllFields && s.errorTexts[f] == ErrorText(f)
  {
    var s := Submit(input, endpoint, page, transport);
    if !Accepts(input, Name) {
      assert s.errorTexts[Name] == ErrorText(Name);
    } else if !Accepts(input, Email) {
      assert s.errorTexts[Email] == ErrorText(Email);
    } else {
      assert s.errorTexts[Message] == ErrorText(Message);
    }
  }

  /** The handler only ever looks at the trimmed field values. */
  lemma SubmitSeesOnlyTrimmedValues(input: FormInput, input': FormInput, endpoint: string, page: string,
                                    transport: Transport)
    requires Trim(input.name) == Trim(input'.name)
    requires Trim(input.email) == Trim(input'.email)
    requires Trim(input.message) == Trim(input'.message)
    ensures Submit(input, endpoint, page, transport) == Submit(input', endpoint, page, transport)
  {
    assert forall f :: Accepts(input, f) <==> Accepts(input', f);
    assert FailingFields(input) == FailingFields(input');
    assert TrimmedPayload(input, page) == TrimmedPayload(input', page);
    var s, s' := Submit(input, endpoint, page, transport), Submit(input', endpoint, page, transport);
    assert s.errorTexts == s'.errorTexts;
    assert s.outcome == s'.outcome;
  }

  /** Whitespace typed around any field changes neither the verdict nor what is sent. */
  lemma SubmitIgnoresPadding(input: FormInput, namePre: string, namePost: string, emailPre: string,
                              emailPost: string, messagePre: string, messagePost: string,
                              endpoint: string, page: string, transport: Transport)
    requires AllWhitespace(namePre) && AllWhitespace(namePost)
    requires AllWhitespace(emailPre) && AllWhitespace(emailPost)
    requires AllWhitespace(messagePre) && AllWhitespace(messagePost)
    ensures var padded := FormInput(namePre + input.name + namePost,
                                    emailPre + input.email + emailPost,
                                    messagePre + input.message + messagePost);
            Submit(padded, endpoint, page, transport) == Submit(input, endpoint, page, transport)
  {
    var padded := FormInput(namePre + input.name + namePost,
                            emailPre + input.email + emailPost,
                            messagePre + input.message + messagePost);
    TrimIgnoresPadding(namePre, input.name, namePost);
    TrimIgnoresPadding(emailPre, input.email, emailPost);
    TrimIgnoresPadding(messagePre, input.message, messagePost);
    SubmitSeesOnlyTrimmedValues(padded, input, endpoint, page, transport);
  }

  /** The shipped endpoint is the placeholder, so the shipped script never
      sends a request: every valid submission is simulated and resets the form. */
  lemma ShippedEndpointOnlySimulates(input: FormInput, page: string, transport: Transport)
    ensures var s := Submit(input, ShippedEndpoint, page, transport);
            s.outcome.request == None && (s.outcome.formReset <==> AllAccepted(input))
  {
    ShippedEndpointIsPlaceholder();
  }

  /** A string whose ends are not whitespace is its own trimmed form. */
  lemma AlreadyTrimmed(s: string)
    requires s != [] && !IsWhitespace(s[0]) && !IsWhitespace(s[|s| - 1])
    ensures Trim(s) == s
  {
    assert s[..0] == [] && s[|s|..] == [] && s[0..|s|] == s;
    TrimUnique(s, 0, |s|);
  }

  const SampleInput := FormInput("Jane Doe", "jane@example.com", "Hello, this is a test message.")

  lemma SampleIsValid()
    ensures AllAccepted(SampleInput)
  {
    AcceptsSampleAddress();
    AcceptedWhenAlreadyTrimmed(SampleInput);
  }

  /** Values typed without surrounding whitespace are judged as typed. */
  lemma AcceptedWhenAlreadyTrimmed(input: FormInput)
    requires input.name != [] && !IsWhitespace(input.name[0]) && !IsWhitespace(input.name[|input.name| - 1])
    requires input.email != [] && !IsWhitespace(input.email[0]) && !IsWhitespace(input.email[|input.email| - 1])
    requires input.message != [] && !IsWhitespace(input.message[0])
    requires !IsWhitespace(input.message[|input.message| - 1])
    requires |input.name| >= NameMinLength && MatchesPattern(input.email) && |input.message| >= MessageMinLength
    ensures AllAccepted(input)
  {
    AlreadyTrimmed(input.name);
    AlreadyTrimmed(input.email);
    AlreadyTrimmed(input.message);
  }

  /** The shipped endpoint contains the placeholder marker. */
  lemma ShippedEndpointIsPlaceholder()
    ensures Contains(ShippedEndpoint, PlaceholderMarker)
  {
    assert StartsWith(ShippedEndpoint[23..], PlaceholderMarker);
  }
}
