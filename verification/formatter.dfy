/** The result formatter: turns a search response into the text shown to the caller.

    The formatting is split in two stages. `Layout` decides WHAT is shown (an error, the
    "no results" line, or a numbered list of entries); `Render` decides how it is spelled.
    `Format` is their composition, and `FormatSearchResults` is the loop as the plugin writes it. */
module Formatter {
  import opened Text
  import opened SearchData
  import opened PluginConfig

  const MaxContentLength: nat := 200
  const Ellipsis: string := "..."
  const UntitledPlaceholder: string := "无标题"
  const FailurePrefix: string := "❌ 搜索失败: "

  function FailureLine(error: string): string {
    FailurePrefix + error
  }

  function NoResultsLine(query: string): string {
    "🔍 未找到关于 '" + query + "' 的搜索结果"
  }

  function ListingHeader(query: string): string {
    "🔍 搜索结果: " + query + "\n\n"
  }

  function Min(a: int, b: int): int { if a <= b then a else b }
  function Max(a: int, b: int): int { if a <= b then b else a }

  /** Python's `s[:n]`: the first `n` elements, or, for negative `n`, all but the last `-n`. */
  function PyPrefix<T>(s: seq<T>, n: int): (r: seq<T>)
    ensures |r| <= |s| && r == s[..|r|]
    ensures 0 <= n ==> |r| == Min(|s|, n)
    ensures n < 0 ==> |r| == Max(0, |s| + n)
  {
    if 0 <= n then
      (if n < |s| then s[..n] else s)
    else
      (if |s| + n <= 0 then [] else s[..|s| + n])
  }

  /** The content clipping: content longer than `MaxContentLength` is cut to its first 197
      characters followed by `Ellipsis`. */
  function Clip(s: string): string {
    if |s| > MaxContentLength then s[..MaxContentLength - |Ellipsis|] + Ellipsis else s
  }

  /** Clipping bounds the length by 200, leaves content of at most 200 characters untouched,
      keeps the first 197 characters, and ends clipped content with the ellipsis; clipping twice
      is clipping once. */
  lemma ClipSpec(s: string)
    ensures |Clip(s)| == Min(|s|, MaxContentLength)
    ensures Clip(s) == s <==> |s| <= MaxContentLength
    ensures Clip(s)[..Min(|s|, MaxContentLength - |Ellipsis|)] == s[..Min(|s|, MaxContentLength - |Ellipsis|)]
    ensures Clip(s) != s ==> Clip(s)[MaxContentLength - |Ellipsis|..] == Ellipsis
    ensures Clip(Clip(s)) == Clip(s)
  {
  }

  /** Clipping trimmed content keeps it trimmed: the first character is kept and a clipped
      string ends in '.', which is not whitespace. */
  lemma ClipKeepsTrimmed(s: string)
    requires Trimmed(s)
    ensures Trimmed(Clip(s))
  {
    var r := Clip(s);
    if r != [] && r != s {
      assert r[0] == s[..MaxContentLength - |Ellipsis|][0];
      assert r[|r| - 1] == Ellipsis[2];
    }
  }

  /** One numbered entry as displayed: number, title, clipped content and URL. */
  datatype Entry = Entry(number: nat, title: string, content: string, url: string)

  /** The entry for hit `r` under `number`: missing keys take their defaults and the
      content is stripped, then clipped. */
  function EntryOf(number: nat, r: SearchResult): Entry {
    Entry(number, r.title.GetOr(UntitledPlaceholder), Clip(Strip(r.content.GetOr(""))), r.url.GetOr(""))
  }

  /** The entries for `rs`, numbered consecutively from `start` (Python's `enumerate(rs, start)`). */
  function Entries(rs: seq<SearchResult>, start: nat): (es: seq<Entry>)
    ensures |es| == |rs|
    ensures forall k :: 0 <= k < |rs| ==> es[k] == EntryOf(start + k, rs[k])
  {
    if rs == [] then [] else [EntryOf(start, rs[0])] + Entries(rs[1..], start + 1)
  }

  /** What is shown for a response. */
  datatype Display =
    | Failed(error: string)
    | NoResults(query: string)
    | Listing(query: string, entries: seq<Entry>)

  function Layout(data: SearchResponse, maxResults: int): Display {
    if data.error.Some? then Failed(data.error.value)
    else if data.results == [] then NoResults(data.query.GetOr(""))
    else Listing(data.query.GetOr(""), Entries(PyPrefix(data.results, maxResults), 1))
  }

  function TitleLine(e: Entry): string {
    NatToDecimal(e.number) + ". **" + e.title + "**\n"
  }

  /** The indented content line, left out when there is no content to show. */
  function ContentLine(e: Entry): string {
    if e.content == [] then [] else "   " + e.content + "\n"
  }

  function LinkLine(e: Entry): string {
    "   🔗 " + e.url
  }

  function Block(e: Entry): string {
    TitleLine(e) + ContentLine(e) + (LinkLine(e) + "\n\n")
  }

  /** The blocks of `es`, each appended after those before it. */
  function Blocks(es: seq<Entry>): string {
    if es == [] then [] else Blocks(es[..|es| - 1]) + Block(es[|es| - 1])
  }

  function Render(d: Display): string {
    match d
    case Failed(error) => FailureLine(error)
    case NoResults(query) => NoResultsLine(query)
    case Listing(query, entries) => Strip(ListingHeader(query) + Blocks(entries))
  }

  /** `_format_search_results`, with the configured `max_results` passed in. */
  function Format(data: SearchResponse, maxResults: int): string {
    Render(Layout(data, maxResults))
  }

  // ---------------------------------------------------------------------------
  // What is shown.

  /** An error wins: the text is the failure line whatever the results and the limit are. */
  lemma ErrorTakesPrecedence(data: SearchResponse, results: seq<SearchResult>, maxResults: int, otherMax: int)
    requires data.error.Some?
    ensures Format(data, maxResults) == FailureLine(data.error.value)
    ensures Format(data.(results := results), otherMax) == Format(data, maxResults)
  {
  }

  /** Without an error and without results, the text is the single "no results" line, which
      holds the query verbatim (the empty string when the key is missing). */
  lemma NoResultsShowsQuery(data: SearchResponse, maxResults: int)
    requires data.error.None? && data.results == []
    ensures var q := data.query.GetOr("");
      && Format(data, maxResults) == NoResultsLine(q)
      && Format(data, maxResults)[9..9 + |q|] == q
      && (data.query.None? ==> Format(data, maxResults) == "🔍 未找到关于 '' 的搜索结果")
  {
  }

  /** Without an error and with results, the entries are the first ones of the response,
      in their original order, numbered 1, 2, ... ; their count is `min(|results|, maxResults)`
      (for a negative limit, Python's slice drops that many from the end). */
  lemma ListingShape(data: SearchResponse, maxResults: int)
    requires data.error.None? && data.results != []
    ensures Layout(data, maxResults).Listing?
    ensures Layout(data, maxResults).query == data.query.GetOr("")
    ensures var es := Layout(data, maxResults).entries;
      && (0 <= maxResults ==> |es| == Min(|data.results|, maxResults))
      && (maxResults < 0 ==> |es| == Max(0, |data.results| + maxResults))
      && forall k :: 0 <= k < |es| ==> es[k].number == k + 1 && es[k] == EntryOf(k + 1, data.results[k])
  {
  }

  /** A limit at or above the number of results shows them all: raising it further changes nothing. */
  lemma LimitSaturates(data: SearchResponse, maxResults: int)
    requires |data.results| <= maxResults
    ensures Format(data, maxResults) == Format(data, |data.results|)
  {
  }

  /** Missing keys take their defaults: "无标题" for the title, "" for the URL and the content. */
  lemma EntryFields(number: nat, r: SearchResult)
    ensures var e := EntryOf(number, r);
      && e.number == number
      && (r.title.None? ==> e.title == UntitledPlaceholder)
      && (r.title.Some? ==> e.title == r.title.value)
      && (r.url.None? ==> e.url == "")
      && (r.url.Some? ==> e.url == r.url.value)
      && (r.content.None? ==> e.content == "")
  {
  }

  /** The shown content is the stripped content, cut to exactly 200 characters (197 of it and
      "...") when longer; it never starts or ends with whitespace, and the content line is left
      out exactly when the content is missing or all whitespace. */
  lemma EntryContent(number: nat, r: SearchResult)
    ensures var c := Strip(r.content.GetOr(""));
      var e := EntryOf(number, r);
      && (|c| <= MaxContentLength ==> e.content == c)
      && (|c| > MaxContentLength ==> e.content == c[..197] + "..." && |e.content| == 200)
      && |e.content| <= MaxContentLength
      && Trimmed(e.content)
      && (e.content == [] <==> AllWhitespace(r.content.GetOr("")))
      && (ContentLine(e) == [] <==> AllWhitespace(r.content.GetOr("")))
  {
    var s := r.content.GetOr("");
    StripCharacterization(s);
    ClipKeepsTrimmed(Strip(s));
    StripEmptyIffAllWhitespace(s);
  }

  // ---------------------------------------------------------------------------
  // How it is spelled.

  /** Trailing whitespace after a string contributes nothing to its trailing strip. */
  lemma {:induction false} StripTrailingIgnoresWhitespaceSuffix(s: string, w: string)
    requires AllWhitespace(w)
    ensures StripTrailing(s + w) == StripTrailing(s)
    decreases |w|
  {
    if w != [] {
      var w' := w[..|w| - 1];
      assert (s + w)[..|s + w| - 1] == s + w';
      StripTrailingIgnoresWhitespaceSuffix(s, w');
    } else {
      assert s + w == s;
    }
  }

  /** The end of a link line: with a URL that holds a non-whitespace character only the URL's own
      trailing whitespace goes; with an empty or all-whitespace URL the space after the link
      symbol goes too. */
  lemma LinkLineStripped(e: Entry)
    ensures AllWhitespace(e.url) ==> StripTrailing(LinkLine(e)) == "   🔗"
    ensures !AllWhitespace(e.url) ==> StripTrailing(LinkLine(e)) == "   🔗 " + StripTrailing(e.url)
  {
    if AllWhitespace(e.url) {
      assert LinkLine(e) == "   🔗" + (" " + e.url);
      StripTrailingIgnoresWhitespaceSuffix("   🔗", " " + e.url);
    } else {
      StripTrailingAppend("   🔗 ", e.url);
    }
  }

  /** Trailing stripping of a block keeps its title and content lines whole and only trims
      the link line: the blank line after it and any trailing whitespace of the URL. */
  lemma BlockStripped(e: Entry)
    ensures StripTrailing(Block(e)) == TitleLine(e) + ContentLine(e) + StripTrailing(LinkLine(e))
    ensures AllWhitespace(e.url) ==> StripTrailing(LinkLine(e)) == "   🔗"
    ensures !AllWhitespace(e.url) ==> StripTrailing(LinkLine(e)) == "   🔗 " + StripTrailing(e.url)
  {
    LinkLineStripped(e);
    var link := LinkLine(e);
    var prefix := TitleLine(e) + ContentLine(e);
    assert Block(e) == prefix + (link + "\n\n");
    assert (link + "\n\n")[3] == '🔗';
    StripTrailingAppend(prefix, link + "\n\n");
    StripTrailingIgnoresWhitespaceSuffix(link, "\n\n");
  }

  /** The final strip of a listing only removes whitespace from the very end: the header and
      every block but the last are shown in full, and the last block is trimmed as `BlockStripped` says. */
  lemma ListingText(query: string, es: seq<Entry>)
    requires es != []
    ensures Render(Listing(query, es))
      == ListingHeader(query) + Blocks(es[..|es| - 1]) + StripTrailing(Block(es[|es| - 1]))
  {
    var last := es[|es| - 1];
    var prefix := ListingHeader(query) + Blocks(es[..|es| - 1]);
    var raw := ListingHeader(query) + Blocks(es);
    assert raw == prefix + Block(last);
    assert raw[0] == '🔍';
    StripOfNonSpaceStart(raw);
    assert !IsWhitespace(Block(last)[0]) by {
      assert Block(last)[0] == NatToDecimal(last.number)[0];
    }
    StripTrailingAppend(prefix, Block(last));
  }

  /** With no entry to show (a limit of zero or below), the listing is just its header line. */
  lemma EmptyListingText(query: string)
    ensures Render(Listing(query, [])) == StripTrailing("🔍 搜索结果: " + query)
  {
    var raw := ListingHeader(query) + Blocks([]);
    assert raw == ("🔍 搜索结果: " + query) + "\n\n";
    StripTrailingIgnoresWhitespaceSuffix("🔍 搜索结果: " + query, "\n\n");
    assert raw[0] == '🔍';
    StripOfNonSpaceStart(raw);
  }

  // ---------------------------------------------------------------------------
  // The formatter as the plugin writes it.

  lemma Associate(a: string, b: string, c: string)
    ensures (a + b) + c == a + (b + c)
  {
  }

  /** Appending pieces one after another is appending their concatenation. */
  lemma Regroup(a: string, b: string, c: string, d: string)
    ensures a + b + c + d == a + (b + c + d)
  {
  }

  lemma {:induction false} EntriesSnoc(rs: seq<SearchResult>, r: SearchResult, start: nat)
    ensures Entries(rs + [r], start) == Entries(rs, start) + [EntryOf(start + |rs|, r)]
  {
    var lhs := Entries(rs + [r], start);
    var rhs := Entries(rs, start) + [EntryOf(start + |rs|, r)];
    forall k | 0 <= k < |lhs|
      ensures lhs[k] == rhs[k]
    {
      if k < |rs| {
        assert (rs + [r])[k] == rs[k];
      } else {
        assert (rs + [r])[k] == r;
      }
    }
  }

  /** Taking one more result into the prefix appends exactly its block. */
  lemma BlocksPrefixStep(rs: seq<SearchResult>, i: nat)
    requires i < |rs|
    ensures Blocks(Entries(rs[..i + 1], 1)) == Blocks(Entries(rs[..i], 1)) + Block(EntryOf(i + 1, rs[i]))
  {
    assert rs[..i + 1] == rs[..i] + [rs[i]];
    EntriesSnoc(rs[..i], rs[i], 1);
    var shown := Entries(rs[..i + 1], 1);
    assert shown[..i] == Entries(rs[..i], 1);
  }

  /** One iteration of the formatting loop: the title line, the content line when there is
      content, and the link line followed by a blank line, appended to `formatted`. */
  method AppendResult(formatted: string, number: nat, result: SearchResult) returns (r: string)
    ensures r == formatted + Block(EntryOf(number, result))
  {
    var title := result.title.GetOr(UntitledPlaceholder);
    var url := result.url.GetOr("");
    var content := Strip(result.content.GetOr(""));
    if |content| > MaxContentLength {
      content := content[..MaxContentLength - |Ellipsis|] + Ellipsis;
    }
    ghost var entry := EntryOf(number, result);
    assert content == entry.content;
    r := formatted + (NatToDecimal(number) + ". **" + title + "**\n");
    if content != [] {
      r := r + ("   " + content + "\n");
    }
    r := r + ("   🔗 " + url + "\n\n");
    Regroup(formatted, TitleLine(entry), ContentLine(entry), LinkLine(entry) + "\n\n");
  }

  /** `_format_search_results`: the early returns for an error and for no results, then the
      `enumerate` loop that appends one block per kept result, then the final strip. */
  method FormatSearchResults(data: SearchResponse, config: Config) returns (text: string)
    ensures text == Format(data, config.MaxResults())
  {
    if data.error.Some? {
      return FailureLine(data.error.value);
    }
    var results := data.results;
    var query := data.query.GetOr("");
    if results == [] {
      return NoResultsLine(query);
    }
    results := PyPrefix(results, config.MaxResults());
    var formatted := ListingHeader(query);
    var i := 0;
    while i < |results|
      invariant 0 <= i <= |results|
      invariant formatted == ListingHeader(query) + Blocks(Entries(results[..i], 1))
    {
      formatted := AppendResult(formatted, i + 1, results[i]);
      BlocksPrefixStep(results, i);
      Associate(ListingHeader(query), Blocks(Entries(results[..i], 1)), Block(EntryOf(i + 1, results[i])));
      i := i + 1;
    }
    assert results[..i] == results;
    text := Strip(formatted);
  }
}
