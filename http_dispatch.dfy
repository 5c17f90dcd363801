/** `HTTPRequest.dataRequest`, `request` and `uploadMultipartFormData`: how
    the outgoing request is put together, which user-interface closures fire,
    and what the completion closure receives. The transport itself is a
    parameter: the `Response` it would deliver. */
module HTTPDispatch {

  import opened Wrappers
  import opened HTTPErrors
  import opened HTTPOptions
  import opened HTTPResolve

  /** The `Any?` parameters as `dataRequest` tells them apart: absent, a
      `[String: Any]` dictionary (its entries in iteration order), or any
      other value. */
  datatype Params<V> = NoParams | Dictionary(entries: seq<(string, V)>) | OtherValue(value: V)

  /** Which `encode` overload produced the query or body, and with which
      encoding. */
  datatype Encoded<V> =
    | EncodedNil(encoding: Encoding)
    | EncodedParameters(encoding: Encoding, entries: seq<(string, V)>)
    | EncodedJSONObject(value: V)

  datatype HTTPMethod = HTTPMethod(rawValue: string)

  /** The parts of Foundation's `URLRequest` the code sets. */
  datatype URLRequest<V> = URLRequest(url: string, httpMethod: HTTPMethod, encoded: Option<Encoded<V>>,
                                      timeoutInterval: real, headers: seq<Header>)

  /** `URLRequest.init` leaves the timeout at Foundation's 60 seconds. */
  const DefaultTimeoutInterval: real := 60.0

  /** The adapter installed by `HTTPRequest.init(adaptHandler:)`. */
  type Adapter<!V> = (Options, Params<V>) -> (Options, Params<V>)

  /** The identity adapter `HTTPRequest.default` uses. */
  function IdentityAdapter<V(!new)>(): (adapt: Adapter<V>)
    ensures forall o: Options, p: Params<V> :: adapt(o, p) == (o, p)
  {
    (o: Options, p: Params<V>) => (o, p)
  }

  /** With the identity adapter, the caller's own options and parameters
      decide the request. */
  lemma DefaultAdapterRequest<V(!new)>(url: string, httpMethod: HTTPMethod, options: Options, parameters: Params<V>,
                                 hooks: Hooks, response: Response)
    requires !parameters.OtherValue? || options.encoding == JSONEncoding
    ensures var d := DataRequestSpec(url, httpMethod, options, parameters, IdentityAdapter(), hooks, response);
      && d.request.Some?
      && d.request.value.timeoutInterval == options.timeout
      && d.request.value.encoded == EncodeDispatch(options, parameters)
  {
  }

  /** The encoding branch of `dataRequest`; `None` is the `fatalError` for a
      value that is neither a dictionary nor JSON-encoded. */
  function EncodeDispatch<V>(o: Options, p: Params<V>): (r: Option<Encoded<V>>)
    ensures r.None? <==> p.OtherValue? && o.encoding != JSONEncoding
    ensures r.Some? ==> (r.value.EncodedJSONObject? <==> p.OtherValue?)
    ensures r.Some? && !r.value.EncodedJSONObject? ==> r.value.encoding == o.encoding
    ensures r.Some? ==> (r.value.EncodedNil? <==> p.NoParams?)
    ensures r.Some? && r.value.EncodedParameters? ==> p == Dictionary(r.value.entries)
    ensures r.Some? && r.value.EncodedJSONObject? ==> p == OtherValue(r.value.value)
  {
    match p
    case NoParams => Some(EncodedNil(o.encoding))
    case Dictionary(entries) => Some(EncodedParameters(o.encoding, entries))
    case OtherValue(v) => if o.encoding == JSONEncoding then Some(EncodedJSONObject(v)) else None
  }

  /** `URLRequest.addValue(_:forHTTPHeaderField:)`: a field already present
      gets the new value appended after a comma; otherwise it is added. */
  function AddValue(h: seq<Header>, x: Header): (r: seq<Header>)
    ensures HasName(r, x.name)
    ensures |r| == if HasName(h, x.name) then |h| else |h| + 1
    ensures forall i :: 0 <= i < |h| ==> r[i].name == h[i].name
  {
    if h == [] then
      assert [x][0] == x;
      [x]
    else
      HasNameCons(h, x.name);
      if SameName(h[0].name, x.name) then
        var r := [Header(h[0].name, h[0].value + "," + x.value)] + h[1..];
        assert r[0].name == h[0].name;
        r
      else
        var r := [h[0]] + AddValue(h[1..], x);
        HasNameCons(r, x.name);
        assert r[1..] == AddValue(h[1..], x);
        r
  }

  /** `addValue` never loses a field name already on the request. */
  lemma AddValueKeepsNames(h: seq<Header>, x: Header)
    ensures forall n :: HasName(h, n) ==> HasName(AddValue(h, x), n)
  {
    forall n | HasName(h, n) ensures HasName(AddValue(h, x), n) {
      var i :| 0 <= i < |h| && SameName(h[i].name, n);
      assert AddValue(h, x)[i].name == h[i].name;
    }
  }

  /** Adding a header whose name is new appends it. */
  lemma {:induction false} AddValueAppends(h: seq<Header>, x: Header)
    requires !HasName(h, x.name)
    ensures AddValue(h, x) == h + [x]
  {
    if h != [] {
      HasNameCons(h, x.name);
      AddValueAppends(h[1..], x);
      assert [h[0]] + (h[1..] + [x]) == h + [x];
    }
  }

  /** Adding a header whose name is present joins the values with a comma. */
  lemma {:induction false} AddValueJoins(h: seq<Header>, x: Header)
    requires HasName(h, x.name)
    ensures Lookup(AddValue(h, x), x.name) == Some(Lookup(h, x.name).value + "," + x.value)
  {
    HasNameCons(h, x.name);
    if !SameName(h[0].name, x.name) {
      AddValueJoins(h[1..], x);
      assert AddValue(h, x)[1..] == AddValue(h[1..], x);
    }
  }

  /** Adding a header leaves the value of every other field name unchanged. */
  lemma {:induction false} AddValueLookupOther(h: seq<Header>, x: Header, name: string)
    requires !SameName(name, x.name)
    ensures Lookup(AddValue(h, x), name) == Lookup(h, name)
  {
    if h == [] {
      assert AddValue(h, x) == [x];
      assert [x][1..] == [];
    } else if SameName(h[0].name, x.name) {
      assert AddValue(h, x)[1..] == h[1..];
      assert SameName(AddValue(h, x)[0].name, name) <==> SameName(h[0].name, name);
    } else {
      AddValueLookupOther(h[1..], x, name);
      assert AddValue(h, x)[1..] == AddValue(h[1..], x);
    }
  }

  /** The `forEach` over the options' headers, as a fold over its prefix. */
  function AddValues(acc: seq<Header>, hs: seq<Header>): (r: seq<Header>)
    ensures |acc| <= |r| <= |acc| + |hs|
    ensures forall i :: 0 <= i < |acc| ==> r[i].name == acc[i].name
    ensures forall k :: 0 <= k < |hs| ==> HasName(r, hs[k].name)
  {
    if hs == [] then acc
    else
      var n := |hs| - 1;
      var prefix := AddValues(acc, hs[..n]);
      AddValueKeepsNames(prefix, hs[n]);
      assert forall k :: 0 <= k < n ==> hs[k] == hs[..n][k];
      AddValue(prefix, hs[n])
  }

  /** The `forEach` that adds the options' headers with `addValue`. */
  method AddAllValues(acc: seq<Header>, hs: seq<Header>) returns (r: seq<Header>)
    ensures r == AddValues(acc, hs)
  {
    r := acc;
    for i := 0 to |hs|
      invariant r == AddValues(acc, hs[..i])
    {
      assert hs[..i + 1][..i] == hs[..i];
      r := AddValue(r, hs[i]);
    }
    assert hs[..|hs|] == hs;
  }

  /** Headers with unique names, added one by one to a request without
      headers, arrive as they are. */
  lemma {:induction false} AddValuesUnique(hs: seq<Header>)
    ensures UniqueNames(hs) ==> AddValues([], hs) == hs
  {
    if hs != [] && UniqueNames(hs) {
      var n := |hs| - 1;
      var init := hs[..n];
      UniquePrefix(hs);
      AddValuesUnique(init);
      AddValueAppends(init, hs[n]);
      calc {
        AddValues([], hs);
        AddValue(AddValues([], init), hs[n]);
        init + [hs[n]];
        hs;
      }
    }
  }

  /** Dropping the last header keeps the names unique, and the last name
      is not among the others. */
  lemma UniquePrefix(hs: seq<Header>)
    requires hs != [] && UniqueNames(hs)
    ensures UniqueNames(hs[..|hs| - 1])
    ensures !HasName(hs[..|hs| - 1], hs[|hs| - 1].name)
  {
    var init := hs[..|hs| - 1];
    forall i | 0 <= i < |init| ensures !SameName(init[i].name, hs[|hs| - 1].name) {
      assert init[i] == hs[i];
    }
    forall i, j | 0 <= i < j < |init| ensures !SameName(init[i].name, init[j].name) {
      assert init[i] == hs[i] && init[j] == hs[j];
    }
  }

  /** What one call produces: the closure-slot calls in order, the request
      handed to the session (none after `fatalError`), and the value the
      completion closure receives (none after `fatalError`). */
  datatype Dispatch<V, T> = Dispatch(effects: seq<Effect>, request: Option<URLRequest<V>>,
                                     completion: Option<Result<T, ResponseError>>)

  /** One `dataRequest` call, as a value. */
  function DataRequestSpec<V>(url: string, httpMethod: HTTPMethod, options: Options, parameters: Params<V>,
                              adapt: Adapter<V>, hooks: Hooks, response: Response): (d: Dispatch<V, Bytes>)
    // the activity closures follow the caller's options, never the adapted ones
    ensures !options.activityVisible ==> d.effects == []
    ensures options.activityVisible && hooks.showActivity && hooks.dismissToast && d.request.Some?
            ==> d.effects == [ShowActivity, DismissToast]
    // the adapted options and parameters decide the request
    ensures d.request.None? <==> adapt(options, parameters).1.OtherValue? && adapt(options, parameters).0.encoding != JSONEncoding
    ensures d.request.Some? ==> d.request.value.encoded == EncodeDispatch(adapt(options, parameters).0, adapt(options, parameters).1)
    ensures d.request.Some? ==> d.request.value.timeoutInterval == adapt(options, parameters).0.timeout
    ensures d.request.Some? && UniqueNames(adapt(options, parameters).0.httpHeaders)
            ==> d.request.value.headers == adapt(options, parameters).0.httpHeaders
    ensures d.request.Some? ==> d.request.value.url == url && d.request.value.httpMethod == httpMethod
    // the completion closure gets the resolved response, exactly when the request was sent
    ensures d.completion.Some? <==> d.request.Some?
    ensures d.completion.Some? ==> d.completion.value == ResolveData(response)
  {
    var items := adapt(options, parameters);
    var show := if options.activityVisible && hooks.showActivity then [ShowActivity] else [];
    var encoded := EncodeDispatch(items.0, items.1);
    if encoded.None? then Dispatch(show, None, None)
    else
      var dismiss := if options.activityVisible && hooks.dismissToast then [DismissToast] else [];
      AddValuesUnique(items.0.httpHeaders);
      Dispatch(show + dismiss,
               Some(URLRequest(url, httpMethod, encoded, items.0.timeout, AddValues([], items.0.httpHeaders))),
               Some(ResolveData(response)))
  }

  /** `dataRequest`: builds the request step by step, as the Swift code does. */
  method DataRequest<V>(url: string, httpMethod: HTTPMethod, options: Options, parameters: Params<V>,
                        adapt: Adapter<V>, hooks: Hooks, response: Response)
    returns (d: Dispatch<V, Bytes>)
    ensures d == DataRequestSpec(url, httpMethod, options, parameters, adapt, hooks, response)
  {
    var effects: seq<Effect> := [];
    if options.activityVisible && hooks.showActivity {
      effects := effects + [ShowActivity];
    }
    var request := URLRequest(url, httpMethod, None, DefaultTimeoutInterval, []);
    var items := adapt(options, parameters);
    var encoded := EncodeDispatch(items.0, items.1);
    if encoded.None? {
      // fatalError("parameters not dictionary can't encode")
      return Dispatch(effects, None, None);
    }
    request := request.(encoded := encoded);
    request := request.(timeoutInterval := items.0.timeout);
    var headers := AddAllValues(request.headers, items.0.httpHeaders);
    request := request.(headers := headers);
    if options.activityVisible && hooks.dismissToast {
      effects := effects + [DismissToast];
    }
    d := Dispatch(effects, Some(request), Some(ResolveData(response)));
  }

  /** `request`: `dataRequest` with dictionary parameters, followed by the
      JSON step. */
  method Request<V, J>(url: string, httpMethod: HTTPMethod, options: Options, parameters: Option<seq<(string, V)>>,
                       adapt: Adapter<V>, hooks: Hooks, response: Response, parse: Bytes -> Option<J>)
    returns (d: Dispatch<V, J>)
    ensures var params := if parameters.Some? then Dictionary(parameters.value) else NoParams;
      var inner := DataRequestSpec(url, httpMethod, options, params, adapt, hooks, response);
      && d.effects == inner.effects
      && d.request == inner.request
      && d.completion == if inner.completion.Some? then Some(JsonStep(inner.completion.value, parse)) else None
    ensures d.completion.Some? ==> d.completion.value == JsonResponseResolve(response, parse)
  {
    var params := if parameters.Some? then Dictionary(parameters.value) else NoParams;
    var inner := DataRequest(url, httpMethod, options, params, adapt, hooks, response);
    var completion := None;
    if inner.completion.Some? {
      completion := Some(JsonStep(inner.completion.value, parse));
      RequestAgreesWithJsonResponseResolve(response, parse);
    }
    d := Dispatch(inner.effects, inner.request, completion);
  }

  /** A multipart body part: a form field made from the parameters, or a
      part the caller's `multipartFormData` closure appends. */
  datatype FormPart<P> = Field(name: string, value: string) | CallerPart(part: P)

  /** The query components of the dictionary entries, entry after entry;
      `queryComponents` stands for `URLEncoding.queryComponents(fromKey:value:)`. */
  function Components<V>(entries: seq<(string, V)>, queryComponents: (string, V) -> seq<(string, string)>)
    : (cs: seq<(string, string)>)
    ensures |entries| == 1 ==> cs == queryComponents(entries[0].0, entries[0].1)
  {
    if entries == [] then []
    else
      var last := entries[|entries| - 1];
      Components(entries[..|entries| - 1], queryComponents) + queryComponents(last.0, last.1)
  }

  /** Flattening distributes over concatenation of the entries, so each
      entry contributes its own components in entry order. */
  lemma {:induction false} ComponentsConcat<V>(a: seq<(string, V)>, b: seq<(string, V)>,
                                               queryComponents: (string, V) -> seq<(string, string)>)
    ensures Components(a + b, queryComponents) == Components(a, queryComponents) + Components(b, queryComponents)
  {
    if b != [] {
      var n := |b| - 1;
      assert (a + b)[..|a + b| - 1] == a + b[..n];
      assert (a + b)[|a + b| - 1] == b[n];
      ComponentsConcat(a, b[..n], queryComponents);
    } else {
      assert a + b == a;
    }
  }

  function FieldParts<P>(cs: seq<(string, string)>): (parts: seq<FormPart<P>>)
    ensures |parts| == |cs|
    ensures forall k :: 0 <= k < |cs| ==> parts[k] == Field(cs[k].0, cs[k].1)
  {
    seq(|cs|, k requires 0 <= k < |cs| => Field(cs[k].0, cs[k].1))
  }

  function CallerParts<P>(ps: seq<P>): (parts: seq<FormPart<P>>)
    ensures |parts| == |ps|
    ensures forall k :: 0 <= k < |ps| ==> parts[k] == CallerPart(ps[k])
  {
    seq(|ps|, k requires 0 <= k < |ps| => CallerPart(ps[k]))
  }

  /** The form fields the upload closure writes before calling the caller's
      closure. */
  function ParameterFields<V, P>(parameters: Option<seq<(string, V)>>,
                                 queryComponents: (string, V) -> seq<(string, string)>): (fields: seq<FormPart<P>>)
    ensures parameters.None? ==> fields == []
    ensures parameters.Some? ==> |fields| == |Components(parameters.value, queryComponents)|
    ensures forall k :: 0 <= k < |fields| ==>
              fields[k] == Field(Components(parameters.value, queryComponents)[k].0,
                                 Components(parameters.value, queryComponents)[k].1)
  {
    if parameters.Some? then FieldParts(Components(parameters.value, queryComponents)) else []
  }

  /** `uploadMultipartFormData`: the request carries the caller's options
      as they are (no adapter, no activity closures), the body is the
      parameter fields followed by the caller's parts, and the response is
      resolved by `jsonResponseResolve`. */
  method UploadMultipartFormData<V, P, J>(url: string, options: Options, parameters: Option<seq<(string, V)>>,
                                          callerParts: seq<P>,
                                          queryComponents: (string, V) -> seq<(string, string)>,
                                          response: Response, parse: Bytes -> Option<J>)
    returns (request: URLRequest<V>, body: seq<FormPart<P>>, completion: Result<J, ResponseError>)
    ensures request == URLRequest(url, HTTPMethod("POST"), None, options.timeout, options.httpHeaders)
    ensures body == ParameterFields(parameters, queryComponents) + CallerParts(callerParts)
    ensures completion == JsonResponseResolve(response, parse)
  {
    request := URLRequest(url, HTTPMethod("POST"), None, DefaultTimeoutInterval, options.httpHeaders);
    request := request.(timeoutInterval := options.timeout);
    body := [];
    if parameters.Some? {
      var temp := parameters.value;
      var components: seq<(string, string)> := [];
      for i := 0 to |temp|
        invariant components == Components(temp[..i], queryComponents)
      {
        assert temp[..i + 1][..i] == temp[..i];
        components := components + queryComponents(temp[i].0, temp[i].1);
      }
      assert temp[..|temp|] == temp;
      for j := 0 to |components|
        invariant body == FieldParts(components[..j])
      {
        body := body + [Field(components[j].0, components[j].1)];
      }
      assert components[..|components|] == components;
    }
    body := body + CallerParts(callerParts);
    completion := JsonResponseResolve(response, parse);
  }

  /** In the upload body every parameter field comes before every caller
      part, and the caller's parts keep their order. */
  lemma UploadFieldsFirst<V, P>(parameters: Option<seq<(string, V)>>, callerParts: seq<P>,
                                queryComponents: (string, V) -> seq<(string, string)>)
    ensures var fields := ParameterFields<V, P>(parameters, queryComponents);
      var body := fields + CallerParts(callerParts);
      && (forall k :: 0 <= k < |fields| ==> body[k].Field?)
      && body[|fields|..] == CallerParts(callerParts)
  {
  }
}
