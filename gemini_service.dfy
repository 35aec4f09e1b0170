/** What `generateImageVariation` does with the outcome of the remote call
    (services/geminiService.ts:37-49): pick the first inline image of the
    response, and turn every failure into an `Error` with a fixed message
    shape. The request itself is not part of this model. */
module GeminiService {
  import opened Types

  datatype InlineData = InlineData(data: string, mimeType: string)

  /** A response part; only `inlineData` is inspected. */
  datatype Part = Part(inlineData: Option<InlineData>, text: Option<string>)

  datatype Content = Content(parts: Option<seq<Part>>)

  datatype Candidate = Candidate(content: Option<Content>)

  datatype Response = Response(candidates: Option<seq<Candidate>>)

  /** A value reaching the `catch`: an `Error` instance, or anything else
      that was thrown. */
  datatype Thrown = ErrorInstance(message: string) | OtherValue

  /** How the awaited remote call settles. */
  datatype CallOutcome = Rejected(thrown: Thrown) | Resolved(response: Response)

  const ApiErrorPrefix := "API Error: "
  const NoImageMessage := "No image was generated. The model might have refused the request."
  const UnknownErrorMessage := "An unknown error occurred during image generation."

  /** `response.candidates?.[0]?.content?.parts || []`: a missing candidate,
      content or parts list reads as no parts. */
  function PartsOf(response: Response): (r: seq<Part>)
    ensures response.candidates.None? ==> r == []
    ensures response.candidates.Some? && response.candidates.value == [] ==> r == []
    ensures r != [] ==>
      && response.candidates.Some? && response.candidates.value != []
      && response.candidates.value[0].content.Some?
      && response.candidates.value[0].content.value.parts == Some(r)
    ensures response.candidates.Some? && response.candidates.value != []
      && response.candidates.value[0].content.Some?
      && response.candidates.value[0].content.value.parts.Some?
      ==> r == response.candidates.value[0].content.value.parts.value
  {
    match response.candidates
    case None => []
    case Some(cs) =>
      if cs == [] then []
      else match cs[0].content
        case None => []
        case Some(c) => match c.parts
          case None => []
          case Some(ps) => ps
  }

  /** The position of the first part carrying inline data, or `|parts|`
      when there is none. */
  function FirstInlineIndex(parts: seq<Part>): (k: nat)
    ensures k <= |parts|
    ensures k < |parts| ==> parts[k].inlineData.Some?
    ensures forall j :: 0 <= j < k ==> parts[j].inlineData.None?
  {
    if parts == [] || parts[0].inlineData.Some? then 0 else 1 + FirstInlineIndex(parts[1..])
  }

  /** The data of the first part with inline data, if any. */
  function FirstInlineData(parts: seq<Part>): Option<string>
  {
    var k := FirstInlineIndex(parts);
    if k < |parts| then Some(parts[k].inlineData.value.data) else None
  }

  /** The `for...of` loop with its early return (services/geminiService.ts:37-41). */
  method FindInlineData(parts: seq<Part>) returns (r: Option<string>)
    ensures r == FirstInlineData(parts)
  {
    var k := 0;
    while k < |parts|
      invariant 0 <= k <= |parts|
      invariant forall j :: 0 <= j < k ==> parts[j].inlineData.None?
    {
      if parts[k].inlineData.Some? {
        return Some(parts[k].inlineData.value.data);
      }
      k := k + 1;
    }
    return None;
  }

  /** The `try` block on a settled call: it returns the image data, or
      throws, either the rejection of the call or the "no image" `Error`. */
  function TryBlock(call: CallOutcome): (r: Result<string, Thrown>)
    ensures call.Rejected? ==> r == Failure(call.thrown)
    ensures call.Resolved? ==> (r.Success? <==> exists p :: p in PartsOf(call.response) && p.inlineData.Some?)
    ensures r.Success? ==> call.Resolved? && exists p :: p in PartsOf(call.response) && p.inlineData.Some? && p.inlineData.value.data == r.value
    ensures call.Resolved? && r.Failure? ==> r.error == ErrorInstance(NoImageMessage)
  {
    match call
    case Rejected(t) => Failure(t)
    case Resolved(response) =>
      match FirstInlineData(PartsOf(response))
      case Some(data) => Success(data)
      case None => Failure(ErrorInstance(NoImageMessage))
  }

  /** The message of the `Error` the `catch` block throws in place of `t`. */
  function CatchMessage(t: Thrown): (m: string)
    ensures |m| > 0
    ensures t.ErrorInstance? ==> m == ApiErrorPrefix + t.message
    ensures t.OtherValue? ==> m == UnknownErrorMessage
  {
    match t
    case ErrorInstance(msg) => ApiErrorPrefix + msg
    case OtherValue => UnknownErrorMessage
  }

  /** What a caller of `generateImageVariation` observes: the image data,
      or the message of the `Error` it rejects with. */
  function Outcome(call: CallOutcome): (r: Result<string, string>)
    ensures r.Success? <==> call.Resolved? && FirstInlineData(PartsOf(call.response)).Some?
    ensures r.Success? ==> Some(r.value) == FirstInlineData(PartsOf(call.response))
    ensures r.Failure? ==> |r.error| > 0
    ensures r.Failure? ==> ApiErrorPrefix <= r.error || r.error == UnknownErrorMessage
  {
    match TryBlock(call)
    case Success(data) => Success(data)
    case Failure(t) => Failure(CatchMessage(t))
  }

  /** `generateImageVariation` once the remote call has settled. */
  method GenerateImageVariation(call: CallOutcome) returns (r: Result<string, string>)
    ensures r == Outcome(call)
  {
    var thrown: Thrown;
    match call {
      case Rejected(t) =>
        thrown := t;
      case Resolved(response) =>
        var found := FindInlineData(PartsOf(response));
        if found.Some? {
          return Success(found.value);
        }
        thrown := ErrorInstance(NoImageMessage);
    }
    match thrown {
      case ErrorInstance(msg) =>
        r := Failure(ApiErrorPrefix + msg);
      case OtherValue =>
        r := Failure(UnknownErrorMessage);
    }
  }

  /** When some part carries inline data, the call succeeds with the data of
      the first such part, whatever the later parts hold. */
  lemma FirstInlinePartWins(response: Response, k: nat)
    requires k < |PartsOf(response)| && PartsOf(response)[k].inlineData.Some?
    requires forall j :: 0 <= j < k ==> PartsOf(response)[j].inlineData.None?
    ensures Outcome(Resolved(response)) == Success(PartsOf(response)[k].inlineData.value.data)
  {
    var parts := PartsOf(response);
    assert FirstInlineIndex(parts) == k;
  }

  /** A response without inline data, including one that lacks a candidate,
      content or parts list, fails with the wrapped "no image" message: the
      `Error` thrown at line 43 is caught by the block's own `catch`. */
  lemma NoImageIsApiError(response: Response)
    requires forall j :: 0 <= j < |PartsOf(response)| ==> PartsOf(response)[j].inlineData.None?
    ensures Outcome(Resolved(response)) == Failure(ApiErrorPrefix + NoImageMessage)
  {
    var parts := PartsOf(response);
    assert FirstInlineIndex(parts) == |parts|;
  }

  /** A rejected call surfaces with the wrapped message of its `Error`, or
      with the fixed message for any other thrown value. */
  lemma RejectionMessage(t: Thrown)
    ensures t.ErrorInstance? ==> Outcome(Rejected(t)) == Failure(ApiErrorPrefix + t.message)
    ensures t.OtherValue? ==> Outcome(Rejected(t)) == Failure(UnknownErrorMessage)
  {
  }
}
