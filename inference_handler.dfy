/**
 * The inbound-email handler of inference-lambda/index.py: the body-part
 * collection of `get_email`, the reply subject and the address swap of
 * `lambda_handler`, and the request `send_email` hands to the mail service.
 * Fetching the raw object, the classifier endpoint and the mail service are
 * outside the model: the parsed message is an input, and the classifier and
 * the dispatch are given as functions.
 */
module InferenceHandler {

  import opened Wrappers
  import opened MessageFormat
  import opened ResponseBody

  /** One part of a multipart message; `payload` is what `get_payload()` returns for it. */
  datatype Part = Part(payload: string)

  /** A raw message after header and multipart parsing: the four headers the handler reads, and its parts in order. */
  datatype ParsedMessage = ParsedMessage(to: string, from: string, date: string, subject: string, parts: seq<Part>)

  /** The record `get_email` returns; `msg` is the first body part, not yet normalised. */
  datatype Email = Email(to: string, from: string, subject: string, received: string, msg: string)

  /** The endpoint's answer, already rendered as text: `str(label)` and `str(prob * 100)`. */
  datatype Classification = Classification(labelText: string, confidence: string)

  /** The arguments of the mail service's `send_email` call. */
  datatype SendRequest = SendRequest(toAddresses: seq<string>, charset: string, body: string, subject: string, source: string)

  /** How the mail service call ends: a message id, the recognised `ClientError`, or any other exception. */
  datatype DispatchResult = Sent(messageId: string) | ClientError(message: string) | OtherException

  datatype HandlerError =
    | NoBodyPart                          // `messages[0]` on an empty list raises IndexError
    | ClassifierFailed(reason: string)    // `predict` raises: the endpoint call, the JSON decoding or the `[0][0]` indexing
    | DispatchFailed(request: SendRequest)  // an exception other than ClientError escapes `send_email`

  /** The end of one invocation: the fixed status with the request that was dispatched, or an escaped error. */
  datatype Invocation =
    | Completed(statusCode: int, request: SendRequest, dispatch: DispatchResult)
    | Raised(error: HandlerError)

  const ReplyPrefix := "Reply: "
  const Charset := "UTF-8"
  const SuccessStatus := 200

  /** The loop of `get_email`: the payload of every part, in order. */
  method CollectPayloads(parts: seq<Part>) returns (messages: seq<string>)
    ensures |messages| == |parts|
    ensures forall i :: 0 <= i < |parts| ==> messages[i] == parts[i].payload
  {
    messages := [];
    for i := 0 to |parts|
      invariant |messages| == i
      invariant forall j :: 0 <= j < i ==> messages[j] == parts[j].payload
    {
      messages := messages + [parts[i].payload];
    }
  }

  /** `messages[0]`: the first collected part, or the IndexError of an empty list. */
  function FirstPart(messages: seq<string>): (r: Result<string, HandlerError>)
    ensures r.Success? <==> |messages| > 0
    ensures r.Success? ==> r.value == messages[0]
    ensures r.Failure? ==> r.error == NoBodyPart
  {
    if |messages| == 0 then Failure(NoBodyPart) else Success(messages[0])
  }

  /** `get_email` after parsing: the headers, and the first body part as the message. */
  method GetEmail(m: ParsedMessage) returns (r: Result<Email, HandlerError>)
    ensures r.Success? <==> |m.parts| > 0
    ensures r.Failure? ==> r.error == NoBodyPart
    ensures r.Success? ==> r.value == Email(m.to, m.from, m.subject, m.date, m.parts[0].payload)
  {
    var messages := CollectPayloads(m.parts);
    var first := FirstPart(messages);
    match first
    case Failure(e) =>
      r := Failure(e);
    case Success(msg) =>
      r := Success(Email(m.to, m.from, m.subject, m.date, msg));
  }

  /** `'Reply: ' + subject`: the original subject, whole, after the prefix. */
  function ReplySubject(subject: string): (r: string)
    ensures |r| == |ReplyPrefix| + |subject|
    ensures r[..|ReplyPrefix|] == ReplyPrefix
    ensures r[|ReplyPrefix|..] == subject
  {
    ReplyPrefix + subject
  }

  /** `send_email(sub, body, to, sender)`: one destination `to`, source `sender`, both texts in UTF-8. */
  function SendEmailRequest(sub: string, body: string, to: string, sender: string): (q: SendRequest)
    ensures q.toAddresses == [to] && q.source == sender
    ensures q.subject == sub && q.body == body && q.charset == Charset
  {
    SendRequest([to], Charset, body, sub, sender)
  }

  /**
   * The reply to `email` with the given body: it goes back to the original
   * sender, from the original recipient, under the prefixed subject.
   */
  function ReplyEnvelope(email: Email, body: string): (q: SendRequest)
    ensures q.toAddresses == [email.from] && q.source == email.to
    ensures q.subject == ReplySubject(email.subject) && q.body == body
  {
    SendEmailRequest(ReplySubject(email.subject), body, email.from, email.to)
  }

  /**
   * The inbound email a reply would become for its recipient, received at
   * `date`. No code path of the handler builds one: it only serves to state
   * a derived property of the address swap below.
   */
  function Delivered(q: SendRequest, date: string): Email
    requires |q.toAddresses| > 0
  {
    Email(q.toAddresses[0], q.source, q.subject, date, q.body)
  }

  /**
   * Derived property of the address swap, not a behaviour of the handler:
   * the swap is an involution, so a reply to the reply would reach the
   * original recipient, from the original sender.
   */
  lemma ReplyToReply(email: Email, body: string, date: string, body': string)
    ensures var back := ReplyEnvelope(Delivered(ReplyEnvelope(email, body), date), body');
      && back.toAddresses == [email.to]
      && back.source == email.from
      && back.subject == ReplyPrefix + ReplyPrefix + email.subject
  {
  }

  /** The request the handler dispatches for `email`, given the classifier's answer. */
  function Reply(email: Email, c: Classification): SendRequest
  {
    ReplyEnvelope(email, ResponseText(email.received, email.subject, email.msg, c.labelText, c.confidence))
  }

  /**
   * What the reply promises the original sender: it is addressed back to
   * them from the address they wrote to, its subject carries the prefix, and
   * its body opens with the greeting, quotes the first 240 characters of the
   * raw body part (carriage returns and line feeds included) and ends with
   * the confidence sentence.
   */
  lemma ReplyContents(email: Email, c: Classification)
    ensures var q := Reply(email, c);
      var o := SampleOffset(email.received, email.subject);
      var n := Min(|email.msg|, SampleLength);
      && q.toAddresses == [email.from] && q.source == email.to
      && q.subject[|ReplyPrefix|..] == email.subject
      && |Intro| + |ProbClose| <= |q.body|
      && q.body[..|Intro|] == Intro
      && q.body[|q.body| - |ProbClose|..] == ProbClose
      && o + n <= |q.body|
      && q.body[o..o + n] == email.msg[..n]
  {
    ResponseFraming(email.received, email.subject, email.msg, c.labelText, c.confidence);
    ResponseQuotesSample(email.received, email.subject, email.msg, c.labelText, c.confidence);
  }

  /**
   * `lambda_handler` from the parsed message on: select the first body part,
   * classify its normalised text, build the reply from the raw part, and
   * dispatch it. A failing classification is fatal and nothing is sent; a
   * `ClientError` from the mail service is swallowed (only printed), so the
   * fixed status is returned; any other dispatch exception escapes.
   */
  method LambdaHandler(m: ParsedMessage, predict: string -> Result<Classification, string>,
                       send: SendRequest -> DispatchResult)
      returns (out: Invocation)
    ensures |m.parts| == 0 ==> out == Raised(NoBodyPart)
    ensures |m.parts| > 0 && predict(FormatEmailMsg(m.parts[0].payload)).Failure? ==>
      out == Raised(ClassifierFailed(predict(FormatEmailMsg(m.parts[0].payload)).error))
    ensures |m.parts| > 0 && predict(FormatEmailMsg(m.parts[0].payload)).Success? ==>
      var email := Email(m.to, m.from, m.subject, m.date, m.parts[0].payload);
      var q := Reply(email, predict(FormatEmailMsg(email.msg)).value);
      && (out.Raised? <==> send(q).OtherException?)
      && (out.Raised? ==> out.error == DispatchFailed(q))
      && (out.Completed? ==> out.statusCode == SuccessStatus && out.request == q && out.dispatch == send(q))
  {
    var got := GetEmail(m);
    if got.Failure? {
      return Raised(got.error);
    }
    var email := got.value;
    var text := FormatEmailMsg(email.msg);
    var prediction := predict(text);
    if prediction.Failure? {
      return Raised(ClassifierFailed(prediction.error));
    }
    var c := prediction.value;
    var res := PrepareResponse(email.received, email.subject, email.msg, c.labelText, c.confidence);
    var sub := ReplySubject(email.subject);
    var request := SendEmailRequest(sub, res, email.from, email.to);
    var outcome := send(request);
    if outcome.OtherException? {
      out := Raised(DispatchFailed(request));
    } else {
      out := Completed(SuccessStatus, request, outcome);
    }
  }
}
