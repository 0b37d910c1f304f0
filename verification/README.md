# SearxNG search plugin: formatter and client mapping in Dafny

This project models the pure logic of `SearxNGPlugin`, a plugin that lets a chat assistant
search the web through a SearxNG instance. The plugin sends one GET request, turns the outcome
into a search-response dictionary, and renders that dictionary as display text. The model covers
three parts:

- **Result formatter** (`_format_search_results`). An error wins. An empty result list gives the
  "no results" line. Otherwise the text is a header followed by one numbered block per kept result,
  and the whole text is stripped at the end. `Formatter.Layout` decides what is shown
  (`Failed`, `NoResults` or a `Listing` of numbered `Entry` values) and `Formatter.Render` spells it.
  `Formatter.FormatSearchResults` is the plugin's loop, written as a method, and it is proved equal
  to `Formatter.Format`.
- **Failure mapping** (the `try`/`except` of `_search_searxng`). The request's end is a value of
  `Client.Outcome`: a reply with its status and decoded body, a timeout, or another exception (an `Exception`) with
  its message. `Client.ToResponse` maps it to a response.
- **Base URL and parameters**. A trailing '/' is appended to the configured instance URL when it is
  missing. The query parameters fall back to the configuration, and from there to "general" and "zh-CN".

Modules: `Optional` (an `Option` type for dictionary keys that may be missing), `Text` (Python's
`str.strip()` with the full `str.isspace()` table, and `str(int)`), `SearchData` (the response
records), `PluginConfig` (the configuration keys and their defaults), `Formatter`, `Client` and
`Tool`. `Tool` models what `web_search_tool` yields: the client's response for one outcome, then
the formatter. Strings are Dafny strings of Unicode scalar values, so for strings without lone surrogates,
lengths and slices count code points as Python does. This matters for the emoji and CJK text in the fixed messages.

Behaviour of the code worth noting:
- the timeout text is "请求超时";
- content is clipped at a fixed 200 characters;
- the query is not required to be non-empty: nothing in the code checks it;
- a negative `max_results` follows Python's slice `results[:n]`, which drops that many results from
  the end.

## Model

| member | source | states |
|---|---|---|
| Formatter.FormatSearchResults | main.py:89-127 | The formatter as the plugin writes it returns exactly the text of the reference definition `Format`: the early returns, the `enumerate` loop and the final strip. |
| Formatter.AppendResult | main.py:113-125 | One loop iteration appends exactly the block of the entry for that result. The entry has the default-filled title and URL and the stripped, clipped content. |
| Formatter.ErrorTakesPrecedence | main.py:99-100 | When the response has an error, the text is "❌ 搜索失败: " followed by the error. Changing the results or the limit does not change it. |
| Formatter.NoResultsShowsQuery | main.py:102-106 | With no error and no results, the text is the single "no results" line. The query appears in it verbatim, and a missing query reads as "". |
| Formatter.ListingShape | main.py:108-113 | With no error and some results, the text is a listing. Its entries are the first min(number of results, max_results) results, in their original order, numbered 1, 2, … consecutively. A negative limit drops that many results from the end. |
| Formatter.LimitSaturates | main.py:108-109 | A limit at or above the number of results shows all of them. Raising the limit further changes nothing. |
| Formatter.EntryFields | main.py:114-116 | A missing title becomes "无标题", a missing URL becomes "", and missing content becomes "". A present value is used as given. |
| Formatter.EntryContent | main.py:116-124 | Shown content of at most 200 characters is the stripped content unchanged. Longer content becomes its first 197 characters plus "...", exactly 200 characters. The shown content never starts or ends with whitespace. The content line is left out exactly when the content is missing or all whitespace. |
| Formatter.ClipSpec | main.py:119-120 | Clipping gives min(length, 200) characters and keeps the first 197. It changes the content exactly when the content is longer than 200, and a clipped result ends in "...". Clipping twice is the same as clipping once. |
| Formatter.ClipKeepsTrimmed | main.py:116-120 | Clipping content without surrounding whitespace gives content without surrounding whitespace. |
| Formatter.Entries | main.py:113 | Entry k of the list is result k, numbered start + k. This is what `enumerate(results, 1)` pairs. |
| Formatter.PyPrefix | main.py:109 | Python's `results[:n]` is a prefix of the list. Its length is min(len, n) for n ≥ 0 and max(0, len + n) for negative n. |
| Formatter.BlockStripped | main.py:122-127 | Stripping the end of a block keeps its title line and content line whole and trims only the end of the link line `"   🔗 " + url` and the blank line after it. With a URL that holds a non-whitespace character, only the URL's trailing whitespace goes. With an empty or all-whitespace URL (an empty URL is the default for a missing key), the line ends at "🔗" and the space after it goes too. |
| Formatter.ListingText | main.py:111-127 | The final strip of a listing leaves the header and every block except the last unchanged. Only the end of the last block is trimmed. |
| Formatter.EmptyListingText | main.py:109-127 | When the limit keeps no result, the text is the header line "🔍 搜索结果: <query>" with trailing whitespace removed. |
| Text.StripLeadingSpec | main.py:116 | Left stripping removes a prefix that is all whitespace. It stops at the first character that is not whitespace. |
| Text.StripTrailingSpec | main.py:127 | Right stripping removes a suffix that is all whitespace. It stops at the last character that is not whitespace. |
| Text.StripCharacterization | main.py:116 | `strip()` returns a contiguous slice of its input. The margins around the slice are all whitespace, and the slice has no whitespace at either end. |
| Text.StripIdempotent | main.py:116 | Stripping twice gives the same result as stripping once. |
| Text.StripEmptyIffAllWhitespace | main.py:116-123 | Stripping gives the empty string exactly when the input is all whitespace. |
| Text.StripTrailingAppend | main.py:127 | When the second part contains a character that is not whitespace, stripping the end of `a + b` never reaches into `a`. |
| Text.DecimalRoundTrip | main.py:81 | Reading back the decimal numeral of n gives n. This covers the numeral in "HTTP <status>" and the entry numbers. |
| Text.IntToStringInjective | main.py:81 | Different integers render as different strings. |
| Client.NormalizeBaseUrl | main.py:52-54 | The base URL always ends in '/'. It extends the configured URL by at most that one character, and it equals the configured URL when that already ends in '/'. |
| Client.NormalizeBaseUrlIdempotent | main.py:53-54 | Normalising a normalised URL changes nothing. |
| Client.BaseUrl | main.py:52-54 | The searched base URL ends in '/'. When no URL is configured, it is the default instance with a trailing '/'. |
| Client.SearchParams | main.py:58-63 | The parameters are exactly q, format, categories and language. q is the query and format is "json". A given, non-empty category or language argument is used as passed. |
| Client.SearchParamsDefaults | main.py:61-62 | A missing or empty argument falls back to the configured value. An unset configured value falls back to "general" or "zh-CN". |
| Client.ToResponse | main.py:66-87 | On status 200 the decoded body is returned unchanged. Every other outcome gives a response with an error, no results, and the query that was asked. |
| Client.FailureErrors | main.py:78-87 | Status 403 gives the fixed access-denied text. Any other non-200 status gives "HTTP " followed by the status. A timeout gives "请求超时", and any other exception gives its message. |
| Client.HttpErrorReadsBack | main.py:81 | For a non-negative failing status other than 403, the digits after "HTTP " denote the status. Every status a real reply carries is non-negative; a negative one would render with a minus sign. |
| Client.AccessDeniedIsNotHttp | main.py:78-81 | The access-denied text never coincides with an "HTTP <status>" text. |
| Client.StatusErrorsDistinct | main.py:78-81 | Two failing statuses with the same error text are the same status, so the error identifies the status. |
| Tool.FailedSearchShowsError | main.py:141-142 | A search whose request did not succeed shows its error line and no entries, whatever the query. |
| Tool.FailureTexts | main.py:78-100 | The shown text is "❌ 搜索失败: " followed by the access-denied text on 403, by "HTTP <status>" on any other failing status, by "请求超时" on a timeout, and by the exception's message otherwise. |
| Tool.SucceededSearchFormatsBody | main.py:141-142 | A successful search shows the formatted body, cut at the configured `max_results` (default 8). |

## Left out

- Session lifecycle (`initialize`, `terminate`, and lazy creation before the first search, main.py:26-35, 49-50, 148-152): resource management and asynchronous I/O. The timeout and headers configured there are not modelled.
- The GET request, JSON decoding and reading the error body (main.py:66-72): network I/O in a foreign library. `Client.Outcome` stands in for their result. A JSON decoding failure on a 200 reply is an exception in the source, so it appears as `Raised`.
- `urljoin(searxng_url, "search")` (main.py:56): the URL-joining rules of the Python library are not modelled. Only the normalised base URL is.
- Logging (main.py:35, 73-76, 83, 86, 139): side effects with no effect on any returned value.
- Plugin registration and the generator wrapper of `web_search_tool` (main.py:13-19, 129-144): host-framework glue. `Tool.WebSearch` models only the text that is yielded.
- JSON values of the wrong type are not modelled: a `null` title or error (which Python would print as "None"), `null` content (which would raise), and a `null` results list. Every field is a string or missing, and `results` is a list.
- Client.ToResponse: cancellation (`asyncio.CancelledError`) and other errors that are not `Exception`s escape main.py:82-87 and produce no response; `Client.Outcome` has no case for them, so the model does not describe that path.
- Strings holding lone surrogate code points (which `json.loads` produces from escapes such as `"\ud800"`) are not modelled: a Dafny `char` is a Unicode scalar value, so a title, content or query containing one cannot be represented, and its length, stripping and clipping (main.py:116-120) are not covered.
