/** The Snyk enrichment switch of src/skopos/integrations/snyk_adapter.py.
    The configuration (what `load_config` returns) and the parsed offline
    feed (None when opening or parsing the file fails) are inputs. */
module Snyk {
  import opened Values

  /** The adapter's two fields, set once by its constructor. */
  datatype SnykAdapter = SnykAdapter(enabled: Value, apiKey: Value)

  /** `cfg.get("integrations", {}).get("snyk", {})`; None where a `.get`
      lands on a value that is not a dict and raises. */
  function Section(cfg: Value): (r: Option<map<string, Value>>)
    ensures r.Some? <==>
            && cfg.Object?
            && Get(cfg.fields, "integrations", Empty).Object?
            && Get(Get(cfg.fields, "integrations", Empty).fields, "snyk", Empty).Object?
    ensures r.Some? ==> Object(r.value) == Get(Get(cfg.fields, "integrations", Empty).fields, "snyk", Empty)
    ensures cfg.Object? && "integrations" !in cfg.fields ==> r == Some(map[])
  {
    if !cfg.Object? then None
    else
      var integrations := Get(cfg.fields, "integrations", Empty);
      if !integrations.Object? then None
      else
        var snyk := Get(integrations.fields, "snyk", Empty);
        if !snyk.Object? then None else Some(snyk.fields)
  }

  /** `SnykAdapter()`: reads `enabled` (default False) and `api_key`
      (default "") from the section; None when the constructor raises. */
  function Init(cfg: Value): (r: Option<SnykAdapter>)
    ensures r.Some? <==> Section(cfg).Some?
    ensures r.Some? ==> r.value.enabled == Get(Section(cfg).value, "enabled", Bool(false))
    ensures r.Some? ==> r.value.apiKey == Get(Section(cfg).value, "api_key", Str(""))
  {
    match Section(cfg)
    case None => None
    case Some(s) => Some(SnykAdapter(Get(s, "enabled", Bool(false)), Get(s, "api_key", Str(""))))
  }

  /** `is_enabled()`: `bool(self.enabled and self.api_key)`. */
  predicate IsEnabled(a: SnykAdapter) {
    Truthy(a.enabled) && Truthy(a.apiKey)
  }

  /** `_offline_file()`: the configured path, default "". */
  function OfflineFile(cfg: Value): Option<Value> {
    match Section(cfg)
    case None => None
    case Some(s) => Some(Get(s, "offline_file", Str("")))
  }

  /** `{"vulnerabilities": vulns}`. */
  function VulnerabilityReport(vulns: Value): Value {
    Object(map["vulnerabilities" := vulns])
  }

  /** `enrich(package_name, metadata)`. The configuration is read again for
      the offline path, outside the try block, so a malformed section
      raises; everything that fails inside the try block yields `{}`. */
  function Enrich(a: SnykAdapter, cfg: Value, feed: Option<Value>, package: string, metadata: Value): (r: Outcome)
    ensures !IsEnabled(a) ==> r == Returned(Empty)
    ensures r.Raised? <==> IsEnabled(a) && Section(cfg).None?
    ensures r.Returned? ==> r.value == Empty || exists v :: r.value == VulnerabilityReport(v)
  {
    if !IsEnabled(a) then Returned(Empty)
    else match OfflineFile(cfg)
      case None => Raised
      case Some(path) =>
        if Truthy(path) then
          match feed
          case None => Returned(Empty)
          case Some(f) =>
            if f.Object? then Returned(VulnerabilityReport(Get(f.fields, package, List([]))))
            else Returned(Empty)
        else Returned(VulnerabilityReport(List([])))
  }

  /** What `check_package` gets from `SnykAdapter().enrich(package, data)`. */
  function SnykOutcome(cfg: Value, feed: Option<Value>, package: string, metadata: Value): Outcome {
    match Init(cfg)
    case None => Raised
    case Some(a) => Enrich(a, cfg, feed, package, metadata)
  }

  // ---------------------------------------------------------------------

  /** Enabled iff `enabled` is truthy and `api_key` is non-empty; a
      missing key disables the adapter. */
  lemma EnabledIff(cfg: Value)
    requires Section(cfg).Some?
    ensures IsEnabled(Init(cfg).value) <==>
            && "enabled" in Section(cfg).value && Truthy(Section(cfg).value["enabled"])
            && "api_key" in Section(cfg).value && Truthy(Section(cfg).value["api_key"])
  {
  }

  /** An empty `api_key` disables the adapter, whatever `enabled` says. */
  lemma EmptyApiKeyDisables(cfg: Value)
    requires Section(cfg).Some? && Get(Section(cfg).value, "api_key", Str("")) == Str("")
    ensures !IsEnabled(Init(cfg).value)
  {
  }

  /** Disabled: `{}` for every package and metadata. */
  lemma DisabledIsEmpty(cfg: Value, feed: Option<Value>, package: string, metadata: Value)
    requires Init(cfg).Some? && !IsEnabled(Init(cfg).value)
    ensures SnykOutcome(cfg, feed, package, metadata) == Returned(Empty)
  {
  }

  /** Enabled with a loaded feed: the feed's entry for the package, or an
      empty list when the package is not in it. */
  lemma FeedLookup(cfg: Value, f: map<string, Value>, package: string, metadata: Value)
    requires Init(cfg).Some? && IsEnabled(Init(cfg).value) && Truthy(OfflineFile(cfg).value)
    ensures package in f ==>
              SnykOutcome(cfg, Some(Object(f)), package, metadata) == Returned(VulnerabilityReport(f[package]))
    ensures package !in f ==>
              SnykOutcome(cfg, Some(Object(f)), package, metadata) == Returned(VulnerabilityReport(List([])))
  {
  }

  /** Enabled with an offline file that cannot be opened or parsed, or whose
      content is not a dict: `{}`. */
  lemma UnreadableFeedIsEmpty(cfg: Value, feed: Option<Value>, package: string, metadata: Value)
    requires Init(cfg).Some? && IsEnabled(Init(cfg).value) && Truthy(OfflineFile(cfg).value)
    requires feed.None? || !feed.value.Object?
    ensures SnykOutcome(cfg, feed, package, metadata) == Returned(Empty)
  {
  }

  /** Enabled with no offline file configured: an empty vulnerability list. */
  lemma NoOfflineFile(cfg: Value, feed: Option<Value>, package: string, metadata: Value)
    requires Init(cfg).Some? && IsEnabled(Init(cfg).value) && !Truthy(OfflineFile(cfg).value)
    ensures SnykOutcome(cfg, feed, package, metadata) == Returned(VulnerabilityReport(List([])))
  {
  }

  /** The metadata argument never influences the result. */
  lemma MetadataIgnored(cfg: Value, feed: Option<Value>, package: string, m1: Value, m2: Value)
    ensures SnykOutcome(cfg, feed, package, m1) == SnykOutcome(cfg, feed, package, m2)
  {
  }
}
