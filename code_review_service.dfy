/**
 * The one-shot review service (`CodeReviewService.reviewCode`): it rejects
 * blank code, posts the code once, picks the review text out of whatever
 * the server answered, and turns every failure into one of three messages.
 *
 * The HTTP client is not modelled: a `Reply` says what the post produced.
 * `JSON.stringify(data, null, 2)` is not modelled either: a structured
 * payload carries the text it serializes to.
 */
module CodeReviewService {
  import opened Wrappers
  import opened JsStrings

  /** The value of one property of the response data: a string, or anything else. */
  datatype Value = StringValue(s: string) | OtherValue

  /**
   * `response.data`: a string, or any other value with its properties (none
   * for `null`, numbers and booleans) and its serialized text.
   */
  datatype Payload = TextPayload(s: string) | Structured(fields: map<string, Value>, serialized: string)

  /** The properties tried for the review text, in order. */
  const TextFields: seq<string> := ["response", "review", "message", "text"]

  /** `typeof data[name] === 'string'`. */
  predicate HasString(fields: map<string, Value>, name: string) {
    name in fields && fields[name].StringValue?
  }

  /** The value of the first of `names` that holds a string, if any. */
  function FirstStringField(fields: map<string, Value>, names: seq<string>): (r: Option<string>)
    ensures r.None? <==> forall k :: 0 <= k < |names| ==> !HasString(fields, names[k])
    ensures r.Some? ==> exists k :: 0 <= k < |names| && HasString(fields, names[k]) && fields[names[k]].s == r.value
                                    && forall j :: 0 <= j < k ==> !HasString(fields, names[j])
  {
    if names == [] then None
    else if HasString(fields, names[0]) then
      Some(fields[names[0]].s)
    else
      var r := FirstStringField(fields, names[1..]);
      if r.Some? then
        var k' :| 0 <= k' < |names[1..]| && HasString(fields, names[1..][k']) && fields[names[1..][k']].s == r.value
                  && forall j :: 0 <= j < k' ==> !HasString(fields, names[1..][j]);
        assert names[k' + 1] == names[1..][k'];
        assert forall j :: 0 <= j < k' + 1 ==> !HasString(fields, names[j]) by {
          forall j | 0 <= j < k' + 1
            ensures !HasString(fields, names[j])
          {
            if j > 0 {
              assert names[j] == names[1..][j - 1];
            }
          }
        }
        r
      else
        assert forall k :: 0 <= k < |names| ==> !HasString(fields, names[k]) by {
          forall k | 0 <= k < |names|
            ensures !HasString(fields, names[k])
          {
            if k > 0 {
              assert names[k] == names[1..][k - 1];
            }
          }
        }
        r
  }

  /**
   * The review text of a successful reply: the data itself when it is a
   * string, else the first string among `response`, `review`, `message` and
   * `text`, else the serialized data. A reply never fails for its shape.
   */
  function ReviewText(data: Payload): (t: string)
    ensures data.TextPayload? ==> t == data.s
    ensures data.Structured? && HasString(data.fields, "response") ==> t == data.fields["response"].s
    ensures data.Structured? && (forall k :: 0 <= k < |TextFields| ==> !HasString(data.fields, TextFields[k]))
            ==> t == data.serialized
    ensures data.Structured? ==>
            forall k :: 0 <= k < |TextFields| && HasString(data.fields, TextFields[k]) &&
                        (forall j :: 0 <= j < k ==> !HasString(data.fields, TextFields[j]))
                        ==> t == data.fields[TextFields[k]].s
    ensures data.Structured? && t != data.serialized ==>
            exists k :: 0 <= k < |TextFields| && HasString(data.fields, TextFields[k]) && t == data.fields[TextFields[k]].s
  {
    match data
    case TextPayload(s) => s
    case Structured(fields, serialized) =>
      match FirstStringField(fields, TextFields)
      case Some(t) => t
      case None => serialized
  }

  /** `error.response` of a failed post: the status line the server answered with. */
  datatype HttpReply = HttpReply(status: nat, statusText: string)

  /** A caught error: its `response` (if the server answered), whether `request` is set, and its `message`. */
  datatype CaughtError = CaughtError(response: Option<HttpReply>, hasRequest: bool, message: string)

  const ServerErrorPrefix: string := "Server error: "
  const NetworkErrorMessage: string := "Network error: No response from server"
  const UnknownErrorMessage: string := "Unknown error occurred"

  /** The message rethrown for a caught error: server error, network error, or the error's own message. */
  function ClassifyError(e: CaughtError): (m: string)
    ensures e.response.Some? ==> StartsWith(m, ServerErrorPrefix)
    ensures e.response.None? && e.hasRequest ==> m == NetworkErrorMessage
    ensures e.response.None? && !e.hasRequest ==> m == (if e.message != [] then e.message else UnknownErrorMessage)
    ensures m != []
  {
    match e.response
    case Some(reply) => ServerErrorPrefix + Decimal(reply.status) + " - " + reply.statusText
    case None =>
      if e.hasRequest then NetworkErrorMessage
      else if e.message != [] then e.message
      else UnknownErrorMessage
  }

  /**
   * A server error message gives back the status and the status text: after
   * the prefix come the status digits, then ` - `, then the status text.
   */
  lemma ServerErrorNamesStatus(e: CaughtError)
    requires e.response.Some?
    ensures var m := ClassifyError(e);
      var digits := Decimal(e.response.value.status);
      var p := |ServerErrorPrefix|;
      && m[p..p + |digits|] == digits
      && DecimalValue(m[p..p + |digits|]) == e.response.value.status
      && m[p + |digits|..p + |digits| + 3] == " - "
      && m[p + |digits| + 3..] == e.response.value.statusText
  {
    DecimalRoundTrip(e.response.value.status);
  }

  /** What the post produced: the response data, or a caught error. */
  datatype Reply = Replied(data: Payload) | Rejected(error: CaughtError)

  /** Whether `reviewCode` posts the code at all. */
  predicate SendsRequest(code: string) {
    !IsBlank(code)
  }

  /**
   * `reviewCode`: the review text, or the message of the error it throws.
   * Blank code is thrown inside the `try` and so goes through the classifier.
   */
  function ReviewCode(code: string, reply: Reply): (r: Result<string, string>)
    ensures IsBlank(code) ==> r == Failure("Code cannot be empty")
    ensures !IsBlank(code) && reply.Replied? ==> r == Success(ReviewText(reply.data))
    ensures !IsBlank(code) && reply.Rejected? ==> r == Failure(ClassifyError(reply.error))
  {
    if IsBlank(code) then
      Failure(ClassifyError(CaughtError(None, false, "Code cannot be empty")))
    else
      match reply
      case Replied(data) => Success(ReviewText(data))
      case Rejected(error) => Failure(ClassifyError(error))
  }

  /** Blank code gets the same answer whatever the server would have said: no request is made. */
  lemma BlankCodeIgnoresReply(code: string, a: Reply, b: Reply)
    requires IsBlank(code)
    ensures !SendsRequest(code)
    ensures ReviewCode(code, a) == ReviewCode(code, b) == Failure("Code cannot be empty")
  {
  }
}
