/** The request pipeline: `before_request` authenticates the request and
    resolves its bucket and resource path in a fixed order of checks, the
    route handlers pick an action, and raised AppExceptions become error
    responses carrying their status code. */
module Frontend {

  import opened Wrappers
  import opened PyStr
  import opened Exceptions
  import opened Headers
  import opened Canonical
  import opened Auth
  import opened Resolve
  import opened Dispatch

  /** An inbound request: method, headers, path, query arguments and the
      length of the received body. `verb` is the method as werkzeug
      reports it, already upper-cased. */
  datatype Request = Request(
    verb: string,
    headers: seq<Header>,
    path: string,
    args: seq<(string, string)>,
    bodyLength: nat)

  /** What `before_request` leaves on the request-global `g`. */
  datatype Context = Context(
    authInfo: string,
    date: string,
    xAmzString: string,
    authRawString: string,
    bucketName: string,
    resourcePath: string)

  function Lift<T>(r: Result<T, Error>): (f: Result<T, Fault>)
    ensures r.Success? <==> f.Success?
    ensures r.Success? ==> f.value == r.value
    ensures r.Failure? ==> f.error == Raised(r.error)
  {
    match r
    case Success(v) => Success(v)
    case Failure(e) => Failure(Raised(e))
  }

  /** `generate_auth_string`: the string-to-sign ends with the request path
      itself, whichever addressing style the request used. */
  function GenerateAuthString(req: Request, date: string, amz: string): (raw: string)
    ensures req.verb + "\n" <= raw
    ensures |raw| >= |req.path| && raw[|raw| - |req.path|..] == req.path
    ensures raw == StringToSign(req.verb, GetOr(req.headers, "Content-Md5", ""),
                                GetOr(req.headers, "Content-Type", ""), date, amz, req.path)
    ensures !Has(req.headers, "Content-Md5") && !Has(req.headers, "Content-Type") ==>
      raw == req.verb + "\n\n\n" + date + "\n" + amz + req.path
  {
    StringToSign(req.verb, GetOr(req.headers, "Content-Md5", ""), GetOr(req.headers, "Content-Type", ""),
                 date, amz, req.path)
  }

  /** `before_request` as a function of the request: credentials, date,
      headers block, string-to-sign, bucket and path, then the signature. */
  function Prepare(req: Request, sign: Signer): (r: Result<Context, Fault>)
    ensures GetAuthInfo(req.headers).Failure? ==> r == Failure(Raised(GetAuthInfo(req.headers).error))
    ensures GetAuthInfo(req.headers).Success? && DateOnRequest(req.headers).Failure? ==>
      r == Failure(Raised(DateOnRequest(req.headers).error))
    ensures GetAuthInfo(req.headers).Success? && DateOnRequest(req.headers).Success? &&
            GetBucketNameAndResourcePath(Lookup(req.headers, "Host"), req.path).Failure? ==>
      r == Failure(GetBucketNameAndResourcePath(Lookup(req.headers, "Host"), req.path).error)
    ensures GetAuthInfo(req.headers).Success? && DateOnRequest(req.headers).Success? &&
            GetBucketNameAndResourcePath(Lookup(req.headers, "Host"), req.path).Success? &&
            AuthCheck(Users, GetAuthInfo(req.headers).value,
                      GenerateAuthString(req, DateOnRequest(req.headers).value, XAmzString(req.headers)), sign).Failure? ==>
      r == Failure(Raised(AuthCheck(Users, GetAuthInfo(req.headers).value,
                                    GenerateAuthString(req, DateOnRequest(req.headers).value, XAmzString(req.headers)),
                                    sign).error))
    ensures r.Failure? ==>
      r.error == Uncaught(TypeError) ||
      (r.error.Raised? && r.error.kind in {InvalidArgument, NotImplemented, InvalidAccessKeyId, SignatureDoesNotMatch})
    ensures r.Success? ==>
      GetAuthInfo(req.headers) == Success(r.value.authInfo) &&
      DateOnRequest(req.headers) == Success(r.value.date) &&
      r.value.xAmzString == XAmzString(req.headers) &&
      r.value.authRawString == GenerateAuthString(req, r.value.date, r.value.xAmzString) &&
      GetBucketNameAndResourcePath(Lookup(req.headers, "Host"), req.path) ==
        Success((r.value.bucketName, r.value.resourcePath)) &&
      AuthCheck(Users, r.value.authInfo, r.value.authRawString, sign).Success?
  {
    var authInfo :- Lift(GetAuthInfo(req.headers));
    var date :- Lift(DateOnRequest(req.headers));
    var amz := XAmzString(req.headers);
    var raw := GenerateAuthString(req, date, amz);
    var resolved :- GetBucketNameAndResourcePath(Lookup(req.headers, "Host"), req.path);
    var accepted :- Lift(AuthCheck(Users, authInfo, raw, sign));
    Success(Context(authInfo, date, amz, raw, resolved.0, resolved.1))
  }

  /** `before_request`, filling in `g` one step at a time. */
  method BeforeRequest(req: Request, sign: Signer) returns (r: Result<Context, Fault>)
    ensures r == Prepare(req, sign)
  {
    var authInfo := GetAuthInfo(req.headers);
    if authInfo.Failure? {
      return Failure(Raised(authInfo.error));
    }
    var date := GetDateOnRequest(req.headers);
    if date.Failure? {
      return Failure(Raised(date.error));
    }
    var amz := GenerateXAmzString(req.headers);
    var raw := GenerateAuthString(req, date.value, amz);
    var resolved := GetBucketNameAndResourcePath(Lookup(req.headers, "Host"), req.path);
    if resolved.Failure? {
      return Failure(resolved.error);
    }
    var check := AuthCheck(Users, authInfo.value, raw, sign);
    if check.Failure? {
      return Failure(Raised(check.error));
    }
    r := Success(Context(authInfo.value, date.value, amz, raw, resolved.value.0, resolved.value.1));
  }

  /** The view the request's method and path reach. HEAD is served by the
      GET views; the root path `/` has a GET view only, since the
      `/<path:path>` rules need a non-empty path. */
  function Route(req: Request, g: Context): (r: Result<Action, Fault>)
    ensures (req.verb == "GET" || req.verb == "HEAD") ==>
      (r.Success? ==> r.value.DownloadObject? || r.value.ListObjects?) &&
      (r.Failure? ==> g.resourcePath == "" && r.error == Raised(NotImplemented))
    ensures req.verb != "GET" && req.verb != "HEAD" && req.path == "/" ==> r == Success(Unrouted)
    ensures req.verb !in {"GET", "HEAD", "PUT", "DELETE"} ==> r == Success(Unrouted)
    ensures (req.verb == "GET" || req.verb == "HEAD") && g.resourcePath != "" ==> r == Success(DownloadObject)
    ensures (req.verb == "GET" || req.verb == "HEAD") && g.resourcePath == "" ==>
      (ProcessObjectList(req.args).Success? ==> r == Success(ProcessObjectList(req.args).value)) &&
      (ProcessObjectList(req.args).Failure? ==> r == Failure(Raised(NotImplemented)))
    ensures req.verb == "PUT" && req.path != "/" && r.Success? ==> r.value.CreatePrefix? || r.value.CreateObject?
    ensures req.verb == "PUT" && req.path != "/" && ContentLength(req.headers).Failure? ==>
      r == Failure(ContentLength(req.headers).error)
    ensures req.verb == "PUT" && req.path != "/" && ContentLength(req.headers).Success? &&
            ContentLength(req.headers).value != req.bodyLength ==>
      r == Failure(Raised(MissingContentLength))
    ensures req.verb == "PUT" && req.path != "/" && ContentLength(req.headers) == Success(req.bodyLength as int) ==>
      (g.resourcePath == "" ==> r == Failure(Uncaught(IndexError))) &&
      (g.resourcePath != "" ==>
        r == Success(if g.resourcePath[|g.resourcePath| - 1] == '/' then CreatePrefix else CreateObject))
    ensures req.verb == "DELETE" && req.path != "/" ==>
      (r.Success? <==> g.resourcePath != "") && (r.Success? ==> r.value.DeletePrefix? || r.value.DeleteObject?)
    ensures req.verb == "DELETE" && req.path != "/" ==>
      (g.resourcePath == "" ==> r == Failure(Uncaught(IndexError))) &&
      (g.resourcePath != "" ==>
        r == Success(if g.resourcePath[|g.resourcePath| - 1] == '/' then DeletePrefix else DeleteObject))
  {
    if req.verb == "GET" || req.verb == "HEAD" then GetRequestWithPath(g.resourcePath, req.args)
    else if req.path == "/" then Success(Unrouted)
    else if req.verb == "PUT" then PutRequestWithPath(req.headers, req.bodyLength, g.resourcePath)
    else if req.verb == "DELETE" then DeleteRequestWithPath(g.resourcePath)
    else Success(Unrouted)
  }

  /** A request end to end: `before_request`, then the route handler. */
  function Handle(req: Request, sign: Signer): (r: Result<(Context, Action), Fault>)
    ensures Prepare(req, sign).Failure? ==> r == Failure(Prepare(req, sign).error)
    ensures r.Success? <==> Prepare(req, sign).Success? && Route(req, Prepare(req, sign).value).Success?
    ensures r.Success? ==> r.value == (Prepare(req, sign).value, Route(req, Prepare(req, sign).value).value)
    ensures Prepare(req, sign).Success? && Route(req, Prepare(req, sign).value).Failure? ==>
      r == Failure(Route(req, Prepare(req, sign).value).error)
  {
    var g :- Prepare(req, sign);
    var action :- Route(req, g);
    Success((g, action))
  }

  /** The JSON error response: `{status_code, message}` with that status. */
  datatype ErrorResponse = ErrorResponse(status: int, statusCode: int, message: string)

  /** `handle_app_error`. */
  function HandleAppError(e: Error): (r: ErrorResponse)
    ensures r.status == r.statusCode == StatusCode(e)
    ensures 400 <= r.status <= 501
    ensures r.message == Message(e)
  {
    ErrorResponse(StatusCode(e), StatusCode(e), Message(e))
  }

  /** The status a failed request is answered with. */
  function FailureStatus(f: Fault): (status: int)
    ensures f.Raised? ==> status == HandleAppError(f.kind).status
    ensures f.Uncaught? ==> status == 500
    ensures 400 <= status <= 501
  {
    match f
    case Raised(e) => HandleAppError(e).status
    case Uncaught(_) => 500
  }

  // ----- the order of the checks in before_request -----

  /** Without an Authorization header nothing else is looked at. */
  lemma NoAuthorizationHeader(req: Request, sign: Signer)
    requires !Has(req.headers, "Authorization")
    ensures Prepare(req, sign) == Failure(Raised(InvalidArgument))
  {
  }

  /** Without either date header the request fails before resolution. */
  lemma NoDateHeader(req: Request, sign: Signer)
    requires GetAuthInfo(req.headers).Success?
    requires !Has(req.headers, "Date") && !Has(req.headers, "X-Amz-Date")
    ensures Prepare(req, sign) == Failure(Raised(InvalidArgument))
  {
  }

  /** An unresolvable request fails with NotImplemented before, and whatever
      the outcome of, the signature check. */
  lemma UnresolvableBeforeSignature(req: Request, sign: Signer, host: string)
    requires GetAuthInfo(req.headers).Success? && DateOnRequest(req.headers).Success?
    requires Lookup(req.headers, "Host") == Some(host)
    requires VirtualHostBucket(host).None? && !PathRegexMatches(req.path)
    ensures Prepare(req, sign) == Failure(Raised(NotImplemented))
  {
  }

  /** A request whose credentials are `id:sign(secret, string-to-sign)` for
      a user of the table is accepted, and `g` holds what was computed. */
  lemma SignedRequestAccepted(req: Request, sign: Signer, scheme: string, id: string, secret: string,
                              date: string, resolved: (string, string))
    requires ' ' !in scheme && ' ' !in id && ':' !in id
    requires FindSecret(Users, id) == Some(secret)
    requires DateOnRequest(req.headers) == Success(date)
    requires GetBucketNameAndResourcePath(Lookup(req.headers, "Host"), req.path) == Success(resolved)
    requires var signature := sign(secret, GenerateAuthString(req, date, XAmzString(req.headers)));
      ' ' !in signature && Lookup(req.headers, "Authorization") == Some(scheme + " " + (id + ":" + signature))
    ensures Prepare(req, sign).Success?
    ensures var g := Prepare(req, sign).value;
      g.bucketName == resolved.0 && g.resourcePath == resolved.1 && g.date == date &&
      g.xAmzString == XAmzString(req.headers) &&
      g.authRawString == GenerateAuthString(req, date, XAmzString(req.headers)) &&
      g.authInfo == id + ":" + sign(secret, g.authRawString)
  {
    var raw := GenerateAuthString(req, date, XAmzString(req.headers));
    var credentials := id + ":" + sign(secret, raw);
    assert ' ' !in credentials;
    AuthInfoAccepts(req.headers, scheme, credentials);
    AuthCheckAcceptsSigned(Users, id, secret, raw, sign);
  }

  /** A known user with any other signature is refused. */
  lemma WrongSignatureRejected(req: Request, sign: Signer, scheme: string, id: string, secret: string,
                               signature: string, date: string)
    requires ' ' !in scheme && ' ' !in id && ':' !in id && ' ' !in signature
    requires FindSecret(Users, id) == Some(secret)
    requires DateOnRequest(req.headers) == Success(date)
    requires GetBucketNameAndResourcePath(Lookup(req.headers, "Host"), req.path).Success?
    requires signature != sign(secret, GenerateAuthString(req, date, XAmzString(req.headers)))
    requires Lookup(req.headers, "Authorization") == Some(scheme + " " + (id + ":" + signature))
    ensures Prepare(req, sign) == Failure(Raised(SignatureDoesNotMatch))
  {
    AuthInfoAccepts(req.headers, scheme, id + ":" + signature);
    AuthCheckWrongSignature(Users, id, secret, signature,
                            GenerateAuthString(req, date, XAmzString(req.headers)), sign);
  }

  /** Whatever is accepted was signed over the request's own string-to-sign
      by a user of the table; the path signed is the request path. */
  lemma AcceptedRequestSound(req: Request, sign: Signer)
    requires Prepare(req, sign).Success?
    ensures var g := Prepare(req, sign).value;
      g.authRawString == StringToSign(req.verb, GetOr(req.headers, "Content-Md5", ""),
                                      GetOr(req.headers, "Content-Type", ""), g.date,
                                      XAmzString(req.headers), req.path) &&
      exists id, secret :: FindSecret(Users, id) == Some(secret) && g.authInfo == id + ":" + sign(secret, g.authRawString)
  {
    var authInfo := GetAuthInfo(req.headers).value;
    var date := DateOnRequest(req.headers).value;
    var raw := GenerateAuthString(req, date, XAmzString(req.headers));
    AuthCheckSound(Users, authInfo, raw, sign);
  }

  // ----- dispatch after before_request -----

  /** On a virtual-host request the resource path is the whole request
      path, which starts with `/`, so a GET never reaches the listing. */
  lemma VirtualHostGetDownloads(req: Request, sign: Signer, host: string)
    requires Lookup(req.headers, "Host") == Some(host) && VirtualHostBucket(host).Some?
    requires req.verb == "GET" && |req.path| >= 1 && req.path[0] == '/'
    requires Prepare(req, sign).Success?
    ensures Handle(req, sign) == Success((Prepare(req, sign).value, DownloadObject))
  {
    PreparedAddress(req, sign);
  }

  /** PUT and DELETE on `/` reach no view of the application. */
  lemma RootServesGetOnly(req: Request, sign: Signer)
    requires req.path == "/" && req.verb != "GET" && req.verb != "HEAD"
    requires Prepare(req, sign).Success?
    ensures Handle(req, sign) == Success((Prepare(req, sign).value, Unrouted))
  {
  }

  /** `g` holds the bucket and resource path the resolution produced. */
  lemma PreparedAddress(req: Request, sign: Signer)
    requires Prepare(req, sign).Success?
    ensures var g := Prepare(req, sign).value;
      GetBucketNameAndResourcePath(Lookup(req.headers, "Host"), req.path) == Success((g.bucketName, g.resourcePath))
  {
  }

  /** A path-style PUT on the bucket root `/bucket/` gets past the length
      check and then fails on `resource_path[-1]`. */
  lemma PutOnBucketRoot(req: Request, sign: Signer, host: string, bucket: string)
    requires Lookup(req.headers, "Host") == Some(host) && VirtualHostBucket(host).None?
    requires '/' !in bucket && '\n' !in bucket && req.path == "/" + bucket + "/"
    requires req.verb == "PUT" && Lookup(req.headers, "Content-Length") == Some(Decimal(req.bodyLength))
    requires Prepare(req, sign).Success?
    ensures Handle(req, sign) == Failure(Uncaught(IndexError))
  {
    var g := Prepare(req, sign).value;
    PathStyleRoundTrip(host, bucket, "");
    assert req.path == "/" + bucket + "/" + "";
    assert g.resourcePath == "";
    PutOnEmptyResource(req.headers, req.bodyLength);
    assert req.path != "/" by {
      assert |req.path| >= 2;
    }
    assert Route(req, g) == Failure(Uncaught(IndexError));
  }

  /** Any failure is answered with a status between 400 and 501. */
  lemma FailureStatusRange(req: Request, sign: Signer)
    requires Handle(req, sign).Failure?
    ensures 400 <= FailureStatus(Handle(req, sign).error) <= 501
  {
  }
}
