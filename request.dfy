/**
 * The decisions of the HTTP client's interceptors: which header an outgoing
 * request gets, how a business response envelope settles, and what a
 * transport error does to the session.  The transport itself is not part
 * of the model.
 */
module Request {
  import opened Wrappers
  import opened Text
  import opened UserStore

  const BearerPrefix := "Bearer "

  /** The `Authorization` value for the store's token: present exactly when the token is non-null and non-empty. */
  function BearerFor(token: Option<string>): (r: Option<string>)
    ensures r.Some? <==> token.Some? && token.value != ""
    ensures r.Some? ==> StartsWith(r.value, BearerPrefix) && r.value[|BearerPrefix|..] == token.value
  {
    if token.Some? && token.value != "" then Some(BearerPrefix + token.value) else None
  }

  /** The request configuration the interceptor receives; only its headers matter here. */
  class RequestConfig {
    var headers: map<string, string>

    constructor (headers: map<string, string>)
      ensures this.headers == headers
    {
      this.headers := headers;
    }
  }

  /** The request interceptor: attaches `Authorization: Bearer <token>` in place, or leaves the headers alone. */
  method InterceptRequest(config: RequestConfig, store: UserStore) returns (out: RequestConfig)
    modifies config
    ensures out == config
    ensures BearerFor(store.token).Some? ==>
              config.headers == old(config.headers)["Authorization" := BearerFor(store.token).value]
    ensures BearerFor(store.token).None? ==> config.headers == old(config.headers)
  {
    var token := store.token;
    if token.Some? && token.value != "" {
      config.headers := config.headers["Authorization" := "Bearer " + token.value];
    }
    out := config;
  }

  /** The business envelope every response carries. */
  datatype ApiResponse<T> = ApiResponse(code: int, data: T, message: string)

  /** How the response interceptor settles: with the payload, or rejected with an `Error` whose message is also shown. */
  datatype Settled<T> = Resolved(data: T) | Rejected(message: string)

  const DefaultFailure := "请求失败"

  /** The response interceptor's success path. */
  function OnResponse<T>(response: ApiResponse<T>): (r: Settled<T>)
    ensures r.Resolved? <==> response.code == 200 || response.code == 0
    ensures r.Resolved? ==> r.data == response.data
    ensures r.Rejected? ==> r.message != ""
    ensures r.Rejected? ==> r.message == if response.message == "" then DefaultFailure else response.message
  {
    if response.code == 200 || response.code == 0 then Resolved(response.data)
    else Rejected(if response.message != "" then response.message else DefaultFailure)
  }

  /** A transport failure: the HTTP status when a response arrived, and whether a request went out. */
  datatype HttpError = HttpError(status: Option<int>, requestSent: bool)

  /** The branch of the error interceptor an error takes. */
  datatype ErrorKind = Unauthorized | Forbidden | NotFound | ServerError | OtherStatus | NoResponse | BadConfig

  function Classify(e: HttpError): (k: ErrorKind)
    ensures k == Unauthorized <==> e.status == Some(401)
    ensures k in {Forbidden, NotFound, ServerError, OtherStatus} <==> e.status.Some? && e.status.value != 401
    ensures k == NoResponse <==> e.status.None? && e.requestSent
    ensures k == BadConfig <==> e.status.None? && !e.requestSent
  {
    match e.status
    case Some(status) =>
      if status == 401 then Unauthorized
      else if status == 403 then Forbidden
      else if status == 404 then NotFound
      else if status == 500 then ServerError
      else OtherStatus
    case None => if e.requestSent then NoResponse else BadConfig
  }

  /** The message the error interceptor shows for each branch. */
  function Notice(k: ErrorKind): string {
    match k
    case Unauthorized => "未授权,请重新登录"
    case Forbidden => "没有权限访问"
    case NotFound => "请求的资源不存在"
    case ServerError => "服务器错误"
    case OtherStatus => "网络错误"
    case NoResponse => "网络连接失败"
    case BadConfig => "请求配置错误"
  }

  /** `window.location`, of which the interceptor writes only the hash. */
  class BrowserLocation {
    var hash: string

    constructor (hash: string)
      ensures this.hash == hash
    {
      this.hash := hash;
    }
  }

  /**
   * The error interceptor: only a 401 logs the session out and sets the
   * hash to `#/`; every branch shows its notice and rejects with the
   * original error.
   */
  method OnResponseError(e: HttpError, store: UserStore, location: BrowserLocation) returns (notice: string, rejected: HttpError)
    modifies store, location
    ensures rejected == e
    ensures notice == Notice(Classify(e))
    ensures e.status == Some(401) ==> store.Partialize() == Initial && location.hash == "#/"
    ensures e.status != Some(401) ==> store.Partialize() == old(store.Partialize()) && location.hash == old(location.hash)
  {
    if e.status.Some? {
      match e.status.value {
        case 401 =>
          notice := "未授权,请重新登录";
          store.Logout();
          location.hash := "#/";
        case 403 =>
          notice := "没有权限访问";
        case 404 =>
          notice := "请求的资源不存在";
        case 500 =>
          notice := "服务器错误";
        case _ =>
          notice := "网络错误";
      }
    } else if e.requestSent {
      notice := "网络连接失败";
    } else {
      notice := "请求配置错误";
    }
    rejected := e;
  }
}
