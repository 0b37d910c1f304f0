/** The plugin's configuration keys that the modelled code reads, each through `config.get(key, default)`. */
module PluginConfig {
  import opened Optional

  const DefaultSearxngUrl: string := "https://search.sapti.me"
  const DefaultCategories: string := "general"
  const DefaultLanguage: string := "zh-CN"
  const DefaultMaxResults: int := 8

  /** `None` stands for a key absent from the configuration. */
  datatype Config = Config(
    searxngUrl: Option<string>,
    categories: Option<string>,
    language: Option<string>,
    maxResults: Option<int>)
  {
    function SearxngUrl(): string { searxngUrl.GetOr(DefaultSearxngUrl) }
    function Categories(): string { categories.GetOr(DefaultCategories) }
    function Language(): string { language.GetOr(DefaultLanguage) }
    function MaxResults(): int { maxResults.GetOr(DefaultMaxResults) }
  }
}
