/** The search client: the base-URL normalisation, the query parameters, and the mapping from
    the outcome of the single GET request to a search response. The request itself is not
    modelled; its outcome is a value of `Outcome`. */
module Client {
  import opened Optional
  import opened Text
  import opened SearchData
  import opened PluginConfig

  const AccessDeniedMessage: string := "访问被拒绝 - 可能SearxNG实例禁止API访问或IP被封禁"
  const TimeoutMessage: string := "请求超时"
  const HttpPrefix: string := "HTTP "

  // ---------------------------------------------------------------------------
  // Base URL.

  predicate EndsWithSlash(s: string) {
    s != [] && s[|s| - 1] == '/'
  }

  /** The configured instance URL with a '/' appended when it does not already end in one. */
  function NormalizeBaseUrl(url: string): (r: string)
    ensures EndsWithSlash(r)
    ensures |url| <= |r| <= |url| + 1 && r[..|url|] == url
    ensures EndsWithSlash(url) ==> r == url
  {
    if EndsWithSlash(url) then url else url + "/"
  }

  /** Normalising a normalised URL changes nothing. */
  lemma NormalizeBaseUrlIdempotent(url: string)
    ensures NormalizeBaseUrl(NormalizeBaseUrl(url)) == NormalizeBaseUrl(url)
  {
  }

  /** The base URL the client searches under, the default instance when none is configured. */
  function BaseUrl(config: Config): (r: string)
    ensures EndsWithSlash(r)
    ensures config.searxngUrl.None? ==> r == DefaultSearxngUrl + "/"
  {
    NormalizeBaseUrl(config.SearxngUrl())
  }

  // ---------------------------------------------------------------------------
  // Query parameters.

  /** Python's `arg or fallback` on a string argument: `None` and "" are both falsy. */
  function OrElse(arg: Option<string>, fallback: string): string {
    if arg.Some? && arg.value != "" then arg.value else fallback
  }

  /** The query parameters of the request: the query, JSON output, and the category and
      language, each taken from the argument when it is given and non-empty, else from the configuration. */
  function SearchParams(query: string, categories: Option<string>, language: Option<string>, config: Config)
    : (p: map<string, string>)
    ensures p.Keys == {"q", "format", "categories", "language"}
    ensures p["q"] == query && p["format"] == "json"
    ensures categories.Some? && categories.value != "" ==> p["categories"] == categories.value
    ensures language.Some? && language.value != "" ==> p["language"] == language.value
  {
    map["q" := query, "format" := "json",
        "categories" := OrElse(categories, config.Categories()),
        "language" := OrElse(language, config.Language())]
  }

  /** A missing or empty argument falls back to the configuration, and an unset configuration to
      "general" and "zh-CN". */
  lemma SearchParamsDefaults(query: string, categories: Option<string>, language: Option<string>, config: Config)
    requires categories.None? || categories.value == ""
    requires language.None? || language.value == ""
    ensures var p := SearchParams(query, categories, language, config);
      && p["categories"] == config.categories.GetOr("general")
      && p["language"] == config.language.GetOr("zh-CN")
  {
  }

  // ---------------------------------------------------------------------------
  // Outcome of the request.

  /** How the GET request ended: a reply with its status and the JSON body it would decode to
      (read only when the status is 200), a timeout, or any other `Exception` with its message.
      Errors that are not `Exception`s (cancellation) leave the search without a response and
      have no case here. */
  datatype Outcome =
    | Reply(status: int, body: SearchResponse)
    | TimedOut
    | Raised(message: string)
  {
    predicate Succeeded() {
      Reply? && status == 200
    }
  }

  /** The response `_search_searxng` returns for an outcome: the decoded body on 200, and
      otherwise a response that carries the error, no results, and the query it was asked. */
  function ToResponse(outcome: Outcome, query: string): (r: SearchResponse)
    ensures outcome.Succeeded() ==> r == outcome.body
    ensures !outcome.Succeeded() ==> r.error.Some? && r.results == [] && r.query == Some(query)
  {
    match outcome
    case Reply(status, body) =>
      if status == 200 then body
      else if status == 403 then SearchResponse(Some(AccessDeniedMessage), Some(query), [])
      else SearchResponse(Some(HttpPrefix + IntToString(status)), Some(query), [])
    case TimedOut => SearchResponse(Some(TimeoutMessage), Some(query), [])
    case Raised(message) => SearchResponse(Some(message), Some(query), [])
  }

  /** The error each failure carries: the fixed access-denied text for 403, "HTTP <status>" for any
      other non-200 status, the fixed timeout text, or the exception's message. */
  lemma FailureErrors(outcome: Outcome, query: string)
    ensures outcome.Reply? && outcome.status == 403 ==> ToResponse(outcome, query).error == Some(AccessDeniedMessage)
    ensures outcome.Reply? && outcome.status != 200 && outcome.status != 403 ==>
      var e := ToResponse(outcome, query).error.value;
      e[..5] == HttpPrefix && IntToString(outcome.status) == e[5..]
    ensures outcome.TimedOut? ==> ToResponse(outcome, query).error == Some(TimeoutMessage)
    ensures outcome.Raised? ==> ToResponse(outcome, query).error == Some(outcome.message)
  {
  }

  /** A non-negative status other than 200 and 403 can be read back from its error text:
      the digits after "HTTP " denote the status. */
  lemma HttpErrorReadsBack(status: int, body: SearchResponse, query: string)
    requires 0 <= status && status != 200 && status != 403
    ensures var e := ToResponse(Reply(status, body), query).error.value;
      AllDigits(e[5..]) && DecimalValue(e[5..]) == status
  {
    var e := ToResponse(Reply(status, body), query).error.value;
    assert e[5..] == NatToDecimal(status);
    DecimalRoundTrip(status);
  }

  /** The access-denied text cannot be mistaken for an "HTTP <status>" text. */
  lemma AccessDeniedIsNotHttp(status: int)
    ensures AccessDeniedMessage != HttpPrefix + IntToString(status)
  {
    assert AccessDeniedMessage[0] != (HttpPrefix + IntToString(status))[0];
  }

  /** Distinct failing statuses are reported with distinct errors, so the error identifies the status. */
  lemma StatusErrorsDistinct(a: int, b: int, bodyA: SearchResponse, bodyB: SearchResponse, query: string)
    requires a != 200 && b != 200
    requires ToResponse(Reply(a, bodyA), query).error == ToResponse(Reply(b, bodyB), query).error
    ensures a == b
  {
    var ea := ToResponse(Reply(a, bodyA), query).error.value;
    var eb := ToResponse(Reply(b, bodyB), query).error.value;
    AccessDeniedIsNotHttp(a);
    AccessDeniedIsNotHttp(b);
    if a != 403 && b != 403 {
      assert ea[5..] == IntToString(a);
      assert eb[5..] == IntToString(b);
      IntToStringInjective(a, b);
    }
  }
}
