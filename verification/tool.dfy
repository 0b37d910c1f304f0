/** The search tool offered to the language model: one search, then the formatter on its response. */
module Tool {
  import opened PluginConfig
  import opened Formatter
  import opened Client
  import opened Text

  /** The text `web_search_tool` yields for a query whose request ended with `outcome`. */
  function WebSearch(outcome: Outcome, query: string, config: Config): string {
    Format(ToResponse(outcome, query), config.MaxResults())
  }

  /** A request that did not succeed shows its error and no entries, whatever was asked. */
  lemma FailedSearchShowsError(outcome: Outcome, query: string, config: Config)
    requires !outcome.Succeeded()
    ensures Layout(ToResponse(outcome, query), config.MaxResults()).Failed?
    ensures WebSearch(outcome, query, config) == FailureLine(ToResponse(outcome, query).error.value)
  {
  }

  /** The text each failure shows: "❌ 搜索失败: " followed by the access-denied text on 403,
      by "HTTP <status>" on any other failing status, by "请求超时" on a timeout, and by the
      exception's message otherwise. */
  lemma FailureTexts(outcome: Outcome, query: string, config: Config)
    ensures outcome.Reply? && outcome.status == 403 ==>
      WebSearch(outcome, query, config) == FailurePrefix + AccessDeniedMessage
    ensures outcome.Reply? && outcome.status != 200 && outcome.status != 403 ==>
      WebSearch(outcome, query, config) == FailurePrefix + HttpPrefix + IntToString(outcome.status)
    ensures outcome.TimedOut? ==> WebSearch(outcome, query, config) == FailurePrefix + TimeoutMessage
    ensures outcome.Raised? ==> WebSearch(outcome, query, config) == FailurePrefix + outcome.message
  {
  }

  /** A successful request shows the formatted body, with the configured limit. */
  lemma SucceededSearchFormatsBody(outcome: Outcome, query: string, config: Config)
    requires outcome.Succeeded()
    ensures WebSearch(outcome, query, config) == Format(outcome.body, config.MaxResults())
  {
  }
}
