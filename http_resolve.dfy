/** Turning a finished transfer into a `Result`: the completion handler of
    `dataRequest`, the JSON step `request` adds on top of it, and
    `jsonResponseResolve`, which does both at once. */
module HTTPResolve {

  import opened Wrappers
  import opened HTTPErrors

  /** What the transport hands the completion handler: the HTTP status code
      when there is an HTTP response, the body when there is one, and the
      transport error when there is one. */
  datatype Response = Response(status: Option<int>, data: Option<Bytes>, error: Option<NSError>)

  /** The completion handler of `dataRequest`. */
  function ResolveData(resp: Response): (r: Result<Bytes, ResponseError>)
    ensures r.Success? <==> resp.status == Some(200) && resp.data.Some?
    ensures r.Success? ==> r.value == resp.data.value
    ensures r == Failure(EmptyBody) <==> resp.status == Some(200) && resp.data.None?
    ensures r.Failure? && r.error.StatusCode? <==> resp.status.Some? && resp.status.value != 200
    ensures r.Failure? && r.error.StatusCode? ==> r.error.code == resp.status.value
    ensures r.Failure? && r.error.Network? <==> resp.status.None? && resp.error.Some?
    ensures r.Failure? && r.error.Network? ==> r.error.error == resp.error.value
    ensures r == Failure(Empty) <==> resp.status.None? && resp.error.None?
    ensures r.Failure? ==> !r.error.BodyNotJson? && !r.error.MultipartEncode?
  {
    match resp.status
    case Some(code) =>
      if code == 200 then
        (match resp.data
         case Some(data) => Success(data)
         case None => Failure(EmptyBody))
      else Failure(StatusCode(code))
    case None =>
      match resp.error
      case Some(error) => Failure(Network(error))
      case None => Failure(Empty)
  }

  /** The closure `request` passes to `dataRequest`: a body is parsed as
      JSON (`parse` stands for SwiftyJSON's `JSON(data:)`), and a failure is
      passed on as it is. */
  function JsonStep<J>(r: Result<Bytes, ResponseError>, parse: Bytes -> Option<J>): (j: Result<J, ResponseError>)
    ensures r.Failure? ==> j == Failure(r.error)
    ensures r.Success? && parse(r.value).Some? ==> j == Success(parse(r.value).value)
    ensures r.Success? && parse(r.value).None? ==> j == Failure(BodyNotJson(r.value))
  {
    match r
    case Success(data) =>
      (match parse(data)
       case Some(json) => Success(json)
       case None => Failure(BodyNotJson(data)))
    case Failure(error) => Failure(error)
  }

  /** `jsonResponseResolve`, used for uploads. */
  function JsonResponseResolve<J>(resp: Response, parse: Bytes -> Option<J>): (r: Result<J, ResponseError>)
    ensures r.Success? <==> resp.status == Some(200) && resp.data.Some? && parse(resp.data.value).Some?
    ensures r.Success? ==> r.value == parse(resp.data.value).value
    ensures r.Failure? && r.error.BodyNotJson? <==>
              resp.status == Some(200) && resp.data.Some? && parse(resp.data.value).None?
    ensures r.Failure? && r.error.BodyNotJson? ==> r.error.data == resp.data.value
    ensures r == Failure(EmptyBody) <==> resp.status == Some(200) && resp.data.None?
    ensures r.Failure? && r.error.StatusCode? <==> resp.status.Some? && resp.status.value != 200
    ensures r.Failure? && r.error.StatusCode? ==> r.error.code == resp.status.value
    ensures r.Failure? && r.error.Network? <==> resp.status.None? && resp.error.Some?
    ensures r.Failure? && r.error.Network? ==> r.error.error == resp.error.value
    ensures r == Failure(Empty) <==> resp.status.None? && resp.error.None?
    ensures r.Failure? ==> !r.error.MultipartEncode?
  {
    if resp.status.Some? then
      if resp.status.value == 200 then
        if resp.data.Some? then
          var data := resp.data.value;
          if parse(data).Some? then Success(parse(data).value) else Failure(BodyNotJson(data))
        else Failure(EmptyBody)
      else Failure(StatusCode(resp.status.value))
    else if resp.error.Some? then Failure(Network(resp.error.value))
    else Failure(Empty)
  }

  /** The two-stage path of `request` and the one-step `jsonResponseResolve`
      agree on every response and every parser. */
  lemma RequestAgreesWithJsonResponseResolve<J>(resp: Response, parse: Bytes -> Option<J>)
    ensures JsonStep(ResolveData(resp), parse) == JsonResponseResolve(resp, parse)
  {
  }

  /** The outcome does not depend on the transport error once there is an
      HTTP response, nor on the body unless the status is 200. */
  lemma ResponseTakesPrecedence<J>(resp: Response, error: Option<NSError>, data: Option<Bytes>,
                                   parse: Bytes -> Option<J>)
    requires resp.status.Some? && resp.status.value != 200
    ensures JsonResponseResolve(resp.(error := error, data := data), parse) == JsonResponseResolve(resp, parse)
  {
  }
}
