/** `HTTPRequest.ResponseError`, its `description` and
    `defaultHandleRequestError`. Localized strings are represented by the
    `MessageKind` they select, carrying whatever the format string embeds. */
module HTTPErrors {

  import opened Wrappers

  /** Raw bytes (Foundation's `Data`). */
  type Bytes = seq<bv8>

  /** An `NSError` as the Swift code inspects it: its domain and its code. */
  datatype NSError = NSError(domain: string, code: int)

  const NSURLErrorDomain: string := "NSURLErrorDomain"
  const NSPOSIXErrorDomain: string := "NSPOSIXErrorDomain"

  // The Foundation URL loading error codes the classification looks at.
  const NSURLErrorTimedOut: int := -1001
  const NSURLErrorCannotFindHost: int := -1003
  const NSURLErrorCannotConnectToHost: int := -1004
  const NSURLErrorNetworkConnectionLost: int := -1005
  const NSURLErrorNotConnectedToInternet: int := -1009

  /** POSIX error 50 (ENETDOWN), reported when cellular data is switched off
      for the app. */
  const POSIXNetworkDown: int := 50

  datatype ResponseError =
    | EmptyBody
    | Empty
    | BodyNotJson(data: Bytes)
    | StatusCode(code: int)
    | Network(error: NSError)
    | MultipartEncode(cause: NSError)

  /** The localized message a description selects. */
  datatype MessageKind =
    | ServerNoBody                                     // server error, no response data
    | ServerNoResponse                                 // server error, no response
    | ServerBodyNotJson                                // server error, body is not JSON
    | ServerStatusCode(code: int, statusText: string)  // server error, status code %i, %@
    | RequestTimedOut
    | NotConnectedToInternet
    | ConnectionLost
    | CannotFindHost
    | CannotConnectToHost
    | AllowWirelessData(appName: string)               // allow "%@" to use wireless data
    | CheckNetwork(detail: string)                     // check the network, then "%@"
    | MultipartEncodeFailed
    | PromptTitle                                      // the alert title

  /** The closures and system lookups the description needs:
      `HTTPURLResponse.localizedString(forStatusCode:)` and
      `AppInfo.displayName`. */
  datatype Environment = Environment(statusText: int -> string, displayName: string)

  /** Decimal digits of a natural number, most significant first, with no
      leading zero. */
  function NatToDecimal(n: nat): (s: string)
    ensures |s| > 0
    ensures forall k :: 0 <= k < |s| ==> '0' <= s[k] <= '9'
    ensures n > 0 ==> s[0] != '0'
  {
    if n < 10 then [DigitChar(n)] else NatToDecimal(n / 10) + [DigitChar(n % 10)]
  }

  function DigitChar(d: nat): (c: char)
    requires d < 10
    ensures '0' <= c <= '9' && (c as int) - ('0' as int) == d
  {
    (('0' as int) + d) as char
  }

  /** `%i` applied to an `Int`: optional minus sign, then the decimal digits. */
  function IntToDecimal(i: int): (s: string)
    ensures |s| > 0
    ensures s[0] == '-' <==> i < 0
    ensures i >= 0 ==> forall k :: 0 <= k < |s| ==> '0' <= s[k] <= '9'
  {
    if i < 0 then "-" + NatToDecimal(-i) else NatToDecimal(i)
  }

  /** Reads a nonempty run of decimal digits. */
  function ParseDigits(s: string): (n: nat)
    requires |s| > 0 && forall k :: 0 <= k < |s| ==> '0' <= s[k] <= '9'
  {
    var d := (s[|s| - 1] as int) - ('0' as int);
    if |s| == 1 then d else ParseDigits(s[..|s| - 1]) * 10 + d
  }

  /** The inverse of `IntToDecimal`: reads an optionally signed decimal. */
  function ParseDecimal(s: string): (r: Option<int>)
  {
    if |s| > 0 && s[0] == '-' then
      var t := s[1..];
      if |t| > 0 && forall k :: 0 <= k < |t| ==> '0' <= t[k] <= '9' then Some(0 - ParseDigits(t)) else None
    else if |s| > 0 && forall k :: 0 <= k < |s| ==> '0' <= s[k] <= '9' then Some(ParseDigits(s))
    else None
  }

  lemma {:induction false} ParseNatToDecimal(n: nat)
    ensures ParseDigits(NatToDecimal(n)) == n
  {
    if n >= 10 {
      var s := NatToDecimal(n);
      assert s[..|s| - 1] == NatToDecimal(n / 10);
      ParseNatToDecimal(n / 10);
    }
  }

  /** `%i` formatting is read back exactly: no two codes print alike. */
  lemma DecimalRoundTrip(i: int)
    ensures ParseDecimal(IntToDecimal(i)) == Some(i)
  {
    var s := IntToDecimal(i);
    if i < 0 {
      var t := NatToDecimal(-i);
      ParseNatToDecimal(-i);
      assert s == "-" + t && s[1..] == t;
      assert s[0] == '-';
    } else {
      ParseNatToDecimal(i);
      assert s[0] != '-';
    }
  }

  /** `String(format: "%@-%i", domain, code)`. */
  function DomainCode(e: NSError): (s: string)
    ensures |s| > |e.domain| + 1
    ensures s[..|e.domain| + 1] == e.domain + "-"
    ensures ParseDecimal(s[|e.domain| + 1..]) == Some(e.code)
  {
    var s := e.domain + "-" + IntToDecimal(e.code);
    assert s[|e.domain| + 1..] == IntToDecimal(e.code);
    DecimalRoundTrip(e.code);
    s
  }

  /** The (domain, code) pairs the network classification knows by name. */
  predicate KnownNetworkError(e: NSError)
  {
    || (e.domain == NSURLErrorDomain
        && e.code in {NSURLErrorTimedOut, NSURLErrorNotConnectedToInternet, NSURLErrorNetworkConnectionLost,
                      NSURLErrorCannotFindHost, NSURLErrorCannotConnectToHost})
    || e == NSError(NSPOSIXErrorDomain, POSIXNetworkDown)
  }

  /** `ResponseError.description`. */
  function Description(e: ResponseError, env: Environment): (m: MessageKind)
    // each error case selects its own message
    ensures m == ServerNoBody <==> e == EmptyBody
    ensures m == ServerNoResponse <==> e == Empty
    ensures m == ServerBodyNotJson <==> e.BodyNotJson?
    ensures m == MultipartEncodeFailed <==> e.MultipartEncode?
    ensures m.ServerStatusCode? <==> e.StatusCode?
    ensures e.StatusCode? ==> m == ServerStatusCode(e.code, env.statusText(e.code))
    ensures e.Network? <==> IsNetworkMessage(m)
    ensures e.Network? ==> m == NetworkDescription(e.error, env)
  {
    match e
    case EmptyBody => ServerNoBody
    case Empty => ServerNoResponse
    case BodyNotJson(_) => ServerBodyNotJson
    case StatusCode(code) => ServerStatusCode(code, env.statusText(code))
    case Network(error) => NetworkDescription(error, env)
    case MultipartEncode(_) => MultipartEncodeFailed
  }

  /** The messages only network errors select. */
  predicate IsNetworkMessage(m: MessageKind)
  {
    || m.RequestTimedOut? || m.NotConnectedToInternet? || m.ConnectionLost?
    || m.CannotFindHost? || m.CannotConnectToHost? || m.AllowWirelessData? || m.CheckNetwork?
  }

  /** The `.network` branch of `description`: a switch on the domain, then
      on the code, falling back to the generic message on every `break`. */
  function NetworkDescription(error: NSError, env: Environment): (m: MessageKind)
    ensures IsNetworkMessage(m)
    ensures m.CheckNetwork? <==> !KnownNetworkError(error)
    ensures m.CheckNetwork? ==> m.detail == DomainCode(error)
    ensures m.AllowWirelessData? <==> error == NSError(NSPOSIXErrorDomain, POSIXNetworkDown)
    ensures m.AllowWirelessData? ==> m.appName == env.displayName
    ensures error == NSError(NSURLErrorDomain, NSURLErrorTimedOut) ==> m == RequestTimedOut
    ensures error == NSError(NSURLErrorDomain, NSURLErrorNotConnectedToInternet) ==> m == NotConnectedToInternet
    ensures error == NSError(NSURLErrorDomain, NSURLErrorNetworkConnectionLost) ==> m == ConnectionLost
    ensures error == NSError(NSURLErrorDomain, NSURLErrorCannotFindHost) ==> m == CannotFindHost
    ensures error == NSError(NSURLErrorDomain, NSURLErrorCannotConnectToHost) ==> m == CannotConnectToHost
  {
    var fallback := CheckNetwork(DomainCode(error));
    if error.domain == NSURLErrorDomain then
      if error.code == NSURLErrorTimedOut then RequestTimedOut
      else if error.code == NSURLErrorNotConnectedToInternet then NotConnectedToInternet
      else if error.code == NSURLErrorNetworkConnectionLost then ConnectionLost
      else if error.code == NSURLErrorCannotFindHost then CannotFindHost
      else if error.code == NSURLErrorCannotConnectToHost then CannotConnectToHost
      else fallback
    else if error.domain == NSPOSIXErrorDomain then
      if error.code == POSIXNetworkDown then AllowWirelessData(env.displayName) else fallback
    else fallback
  }

  /** The five named URL errors select five different messages, none of
      them the generic one. */
  lemma URLErrorKindsDistinct(c1: int, c2: int, env: Environment)
    requires KnownNetworkError(NSError(NSURLErrorDomain, c1)) && KnownNetworkError(NSError(NSURLErrorDomain, c2))
    requires c1 != c2
    ensures Description(Network(NSError(NSURLErrorDomain, c1)), env)
            != Description(Network(NSError(NSURLErrorDomain, c2)), env)
    ensures !Description(Network(NSError(NSURLErrorDomain, c1)), env).CheckNetwork?
  {
  }

  /** What the static closure slots hold: whether `showErrorClosure`,
      `showActivityClosure` and `dismissToastClosure` are set. */
  datatype Hooks = Hooks(showActivity: bool, showError: bool, dismissToast: bool)

  /** A call into the user interface: one of the closure slots, or the
      warning alert presented on the key window. */
  datatype Effect =
    | ShowActivity
    | DismissToast
    | ShowError(message: MessageKind)
    | PresentAlert(title: MessageKind, text: string)

  /** `showErrorClosure?(message)`: nothing happens when the slot is empty. */
  function ShowErrorIfSet(hooks: Hooks, message: MessageKind): (effects: seq<Effect>)
    ensures |effects| <= 1
    ensures effects != [] <==> hooks.showError
    ensures forall k :: 0 <= k < |effects| ==> effects[k] == ShowError(message)
  {
    if hooks.showError then [ShowError(message)] else []
  }

  /** The errors that raise the alert when an alert is asked for: no
      internet connection, or cellular data switched off. */
  predicate NeedsAlert(e: ResponseError)
  {
    e.Network? && e.error in {NSError(NSURLErrorDomain, NSURLErrorNotConnectedToInternet),
                              NSError(NSPOSIXErrorDomain, POSIXNetworkDown)}
  }

  /** The warning alert, titled with the prompt title. */
  function Alert(text: string): (effects: seq<Effect>)
    ensures |effects| == 1 && effects[0].PresentAlert?
    ensures effects[0].title == PromptTitle && effects[0].text == text
  {
    [PresentAlert(PromptTitle, text)]
  }

  /** `defaultHandleRequestError(error, needNetworkAlert:)`. */
  function DefaultHandleRequestError(e: ResponseError, needNetworkAlert: bool, hooks: Hooks, env: Environment)
    : (effects: seq<Effect>)
    ensures !needNetworkAlert || !NeedsAlert(e) ==> effects == ShowErrorIfSet(hooks, Description(e, env))
    ensures needNetworkAlert && NeedsAlert(e) ==> effects == Alert(DomainCode(e.error))
    ensures (exists k :: 0 <= k < |effects| && effects[k].PresentAlert?) <==> needNetworkAlert && NeedsAlert(e)
  {
    if !needNetworkAlert then ShowErrorIfSet(hooks, Description(e, env))
    else
      match e
      case Network(error) =>
        if error.domain == NSURLErrorDomain && error.code == NSURLErrorNotConnectedToInternet then
          Alert(DomainCode(error))
        else if error.domain == NSPOSIXErrorDomain && error.code == POSIXNetworkDown then
          Alert(DomainCode(error))
        else ShowErrorIfSet(hooks, Description(e, env))
      case _ => ShowErrorIfSet(hooks, Description(e, env))
  }

  /** Every alert-raising error is also one the description names
      specifically, so the alert never hides a generic message. */
  lemma AlertErrorsAreKnown(e: ResponseError)
    requires NeedsAlert(e)
    ensures KnownNetworkError(e.error)
  {
  }
}
