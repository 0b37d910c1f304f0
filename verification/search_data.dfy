/** The decoded search response, with every dictionary key that the formatter reads through a default. */
module SearchData {
  import opened Optional

  /** One hit of the backend. Each key may be missing from the JSON object; `None` stands for a missing key. */
  datatype SearchResult = SearchResult(title: Option<string>, url: Option<string>, content: Option<string>)

  /** The response object: an optional `error`, an optional `query`, and the hits in backend order
      (a missing `results` key reads as the empty list). */
  datatype SearchResponse = SearchResponse(error: Option<string>, query: Option<string>, results: seq<SearchResult>)
}
