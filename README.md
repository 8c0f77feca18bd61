# Skopos trust gate, modelled in Dafny

Skopos audits Python packages before they are installed. This project models, and proves properties of, the parts of it that make the trust decision:

- **The signed whitelist** (`Whitelist.dfy`). This is a text file of trusted names plus a signature file holding the SHA-256 hex digest of the whitelist.
  - The model covers look-up, append, sign, verify, and the integrity gate `main` runs first.
  - SHA-256 is an abstract `Hasher` that returns a lowercase hex string.
- **`check_package`** (`Audit.dfy`, `Forensics.dfy`).
  - The order of the checks is: whitelist, then a cached score of at least 80, then the registry fetch, then a full audit.
  - A full audit builds an ordered findings dict from five heuristics, plus an optional Snyk and Socket enrichment. It then aggregates a score and saves it to the audit cache under `(package, version)`.
  - The heuristics, the aggregator, the fetch and the adapters are parameters (`Environment`).
  - The method `Auditor.CheckPackage` is proved equal to the function `CheckSpec`.
- **`audit_project`** (`Audit.dfy`).
  - Dependency strings are reduced to names by the split chain.
  - Each name is checked. At a failing one the user's answer either trusts the name (add and re-sign) or ends the audit with exit 1.
  - The method `Auditor.AuditProject` runs the loop over a `WhitelistStore` object and a cache field. It is proved equal to the recursive specification `AuditRun`.
- **`check_velocity`** (`Velocity.dfy`).
- **The Snyk adapter** (`Snyk.dfy`): the on/off switch, the offline feed and `enrich`.
- **The config rewrite of `set_integration_offline_file`** (`ConfigEdit.dfy`).
- **The packaging gate `scripts/ci_packaging_check.py`** (`Packaging.dfy`).

`Values.dfy` holds the JSON-like values the program passes around, with the Python semantics they need: truthiness, `len` (which may raise), and `dict.get`. `Text.dfy` holds the string operations of the source:
- `strip`, `lstrip` and `rstrip`, with Python's whitespace set;
- `find`, `in` and `split(c)[0]`;
- universal-newline translation on text-mode reads;
- iteration over a file's lines.

Exceptions are explicit outcomes. An exception that escapes `check_package` is `Verdict.Crashed`, and one that ends the audit loop is `AuditExit.Errored`. `Outcome.Raised` is an adapter call that raises; `check_package` catches it and adds no finding.

Where the code and its tests disagree, the model follows the code. `tests/test_checker_and_cache.py:82-84` expects the Snyk adapter to be enabled with an empty `api_key`. `src/skopos/integrations/snyk_adapter.py:18` makes that configuration disabled, and `Snyk.EmptyApiKeyDisables` proves it.

## Model

| member | source | states |
|---|---|---|
| Values.Len | src/skopos/checker.py:87 | `len(v)` is defined exactly for strings, lists and dicts, and is 0 exactly when the value is falsy |
| Text.Strip | src/skopos/checker.py:50 | `strip()` is a contiguous slice of the input with only whitespace cut from either end; it has no surrounding whitespace, and it changes nothing on an already trimmed string |
| Text.LStrip | src/skopos/checker.py:50 | the leading half of `strip()`: the result is a suffix of the input, it does not start with whitespace, and every character removed is whitespace |
| Text.RStrip | src/skopos/checker.py:294 | the result is a prefix of the input, it does not end with whitespace, and every character removed is whitespace |
| Text.Find | src/skopos/checker.py:282 | `find(p, from)` is the lowest index at or after `from` where `p` occurs, or -1 exactly when there is none |
| Text.ContainsIff | src/skopos/checker.py:279 | `p in s` holds iff `p` occurs at some index of `s` |
| Text.Before | src/skopos/checker.py:205-208 | `split(c)[0]` is a prefix of the input without `c`, and it ends at the input's end or at its first `c` |
| Text.Universal | src/skopos/checker.py:49 | a text-mode read yields no carriage return |
| Text.LinesAppend | src/skopos/checker.py:49-50 | the lines of a newline-terminated text followed by more text are the first text's lines followed by the rest's |
| Text.LinesOfLine | src/skopos/checker.py:57 | a string with no newline, followed by one, reads back as that single line |
| Text.UniversalAppend | src/skopos/checker.py:56-57 | newline translation distributes over an append when the first part does not end in a carriage return |
| Whitelist.Entry | src/skopos/checker.py:50 | a line contributes nothing or its stripped self, and it names a package exactly when it is not a comment and strips to that name |
| Whitelist.Entries | src/skopos/checker.py:50 | the list comprehension `[l.strip() for l in f if not l.startswith("#")]`; `Whitelist.EntriesIff` and `Whitelist.EntriesAppend` characterise it |
| Whitelist.EntriesAppend | src/skopos/checker.py:50 | the entries of two line lists read one after the other are the first list's entries followed by the second's |
| Whitelist.Listed | src/skopos/checker.py:46-50 | `is_whitelisted`; `Whitelist.ListedIff` states exactly when it holds |
| Whitelist.EntriesIff | src/skopos/checker.py:50 | a name is among the compared entries iff some line does not start with '#' and strips to the name |
| Whitelist.ListedIff | src/skopos/checker.py:46-50 | `is_whitelisted` is false when the file is absent, and otherwise true iff some line the read yields names the package |
| Whitelist.HeaderListsNothing | src/skopos/checker.py:39-43 | the freshly created whitelist, holding only the header comment, lists no package |
| Whitelist.ReadAfterAppend | src/skopos/checker.py:56-57 | for a name with no line break (`\n` or `\r`), appending `name + "\n"` to a newline-terminated whitelist adds exactly that one line to what is read back |
| Whitelist.StripLine | src/skopos/checker.py:50-57 | a name without surrounding whitespace, written with its newline, strips back to the name |
| Whitelist.AfterAdd | src/skopos/checker.py:53-57 | the whitelist after `add_to_whitelist`; `Whitelist.AddThenListed`, `Whitelist.AddKeepsListed` and `Whitelist.AddIdempotent` characterise it |
| Whitelist.ReadAppend | src/skopos/checker.py:49-50 | reading a newline-terminated text followed by more text yields the first text's lines, then the rest's |
| Whitelist.AddThenListed | src/skopos/checker.py:53-57 | after `add_to_whitelist` on a whitelist that is absent or ends in a newline, a plain name is whitelisted |
| Whitelist.AddKeepsListed | src/skopos/checker.py:53-57 | on a whitelist that ends in a newline, adding any name, even one starting with '#' or holding line breaks, never unlists another; the newline is needed, since adding "bar" to "foo" gives "foobar\n" |
| Whitelist.AddIdempotent | src/skopos/checker.py:53-57 | on a whitelist that is absent or ends in a newline, adding a plain name a second time leaves the whitelist as the first add did |
| Whitelist.DigestReadsBack | src/skopos/checker.py:76-77 | a stored hex digest reads back, newline-translated and stripped, as itself |
| Whitelist.Verified | src/skopos/checker.py:69-77 | `verify_whitelist_integrity`; `Whitelist.VerifiedIff`, `Whitelist.MissingSignatureFails`, `Whitelist.SignVerifies` and `Whitelist.TamperDetected` characterise it |
| Whitelist.MissingSignatureFails | src/skopos/checker.py:72-73 | a whitelist without a signature file never verifies |
| Whitelist.VerifiedIff | src/skopos/checker.py:69-77 | for a signature file holding a digest, verification succeeds iff it is the digest of the current whitelist |
| Whitelist.SignVerifies | src/skopos/checker.py:61-77 | the digest that signing stores makes verification succeed |
| Whitelist.TamperDetected | src/skopos/checker.py:69-77 | with an injective hash, a whitelist changed after signing fails verification |
| Whitelist.WhitelistStore.Sign | src/skopos/checker.py:61-65 | signing stores the digest of the whitelist and then verifies; with no whitelist nothing is written |
| Whitelist.WhitelistStore.EnsureExists | src/skopos/checker.py:39-43 | an absent whitelist is created as the header and signed; an existing one is left alone |
| Whitelist.WhitelistStore.Add | src/skopos/checker.py:53-57 | the whitelist becomes its content after the add; a listed name changes nothing; the signature is untouched |
| Whitelist.WhitelistStore.IntegrityGate | src/skopos/checker.py:314-317 | an existing whitelist and its signature are left untouched; an absent one becomes the header, signed with its digest; the run proceeds iff there was none before or the existing one verified |
| Forensics.Keys | src/skopos/checker.py:134-140 | a findings dict has exactly one key per entry |
| Forensics.KeysAt | src/skopos/checker.py:134-140 | the keys come in the order of the entries: the i-th key is the i-th entry's |
| Forensics.Lookup | src/skopos/checker.py:148 | dict read-back: `Lookup(d, k)` finds a value exactly when `k` is a key of `d`; `Forensics.Assign` is specified through it |
| Forensics.Assign | src/skopos/checker.py:148 | `d[k] = v` makes `k` map to `v` and leaves every other key's value alone; a present key keeps its place and a new one goes last |
| Forensics.BaseFindings | src/skopos/checker.py:134-140 | a full audit starts with the five heuristic findings in their fixed order |
| Forensics.SnykFinding | src/skopos/checker.py:143-151 | a Snyk finding exists iff the enrichment returned a non-empty dict whose vulnerabilities have a length; its evidence is that list, and it passes iff the list is empty |
| Forensics.SocketFinding | src/skopos/checker.py:153-159 | a Socket finding exists iff the enrichment returned a truthy value, and it is a pass carrying that value |
| Forensics.AssignKeepsUnique | src/skopos/checker.py:148 | assignment into a dict with unique keys keeps them unique |
| Forensics.BaseUnique | src/skopos/checker.py:134-140 | the five heuristic findings have distinct keys |
| Forensics.AuditFindings | src/skopos/checker.py:134-159 | the findings dict of a full audit; `Forensics.AuditFindingsKeys`, `Forensics.AuditFindingsEnrichment` and `Forensics.AuditFindingsUnique` characterise it |
| Forensics.AuditFindingsUnique | src/skopos/checker.py:134-159 | the findings of a full audit have no key twice |
| Forensics.AuditFindingsKeys | src/skopos/checker.py:134-159 | the audited keys are the five heuristics in order, then "Snyk" and "Socket" exactly when their enrichment yields a finding |
| Forensics.AuditFindingsEnrichment | src/skopos/checker.py:134-159 | the Snyk and Socket findings are exactly what the adapters yield, and the heuristic findings are kept |
| Forensics.AdapterFailuresAddNothing | src/skopos/checker.py:143-159 | when both adapters raise, the findings are the heuristics' alone |
| Velocity.CheckVelocity | src/skopos/checker.py:80-97 | `len(releases)` raising is the only failure; at 20 or more releases the result is a fail carrying only the count; below 20 the status is the resurrection check's, with its meta copied and the count added |
| Velocity.RapidReleasesOnlyCount | src/skopos/checker.py:86-91 | at 20 or more releases the result depends on the release count alone and is a fail |
| Velocity.FewReleasesDelegate | src/skopos/checker.py:93-97 | below 20 releases the status is the one the resurrection check returns |
| Snyk.Section | src/skopos/integrations/snyk_adapter.py:14-15 | the section is read iff the configuration, its `integrations` value and that value's `snyk` value are all dicts, each missing key defaulting to `{}`; the result is the `snyk` dict, and a configuration without `integrations` gives the empty section |
| Snyk.Init | src/skopos/integrations/snyk_adapter.py:12-15 | the constructor succeeds iff the section can be read, with `enabled` defaulting to False and `api_key` to "" |
| Snyk.Enrich | src/skopos/integrations/snyk_adapter.py:20-39 | a disabled adapter returns `{}`; `enrich` raises iff the adapter is enabled and the configuration's section cannot be read; every other result is `{}` or a vulnerability report |
| Snyk.IsEnabled | src/skopos/integrations/snyk_adapter.py:17-18 | `bool(self.enabled and self.api_key)`; `Snyk.EnabledIff` and `Snyk.EmptyApiKeyDisables` characterise it |
| Snyk.OfflineFile | src/skopos/integrations/snyk_adapter.py:41-45 | the configured `offline_file`, default "", or None when the section cannot be read; `Snyk.FeedLookup` and `Snyk.NoOfflineFile` use it |
| Snyk.SnykOutcome | src/skopos/integrations/snyk_adapter.py:12-39 | construct the adapter, then `enrich`; the lemmas from `Snyk.DisabledIsEmpty` to `Snyk.MetadataIgnored` characterise it |
| Snyk.EnabledIff | src/skopos/integrations/snyk_adapter.py:14-18 | the adapter is enabled iff `enabled` is present and truthy and `api_key` is present and non-empty |
| Snyk.EmptyApiKeyDisables | src/skopos/integrations/snyk_adapter.py:15-18 | an empty or missing `api_key` disables the adapter whatever `enabled` says |
| Snyk.DisabledIsEmpty | src/skopos/integrations/snyk_adapter.py:20-23 | when disabled, enrichment is `{}` for every package and metadata |
| Snyk.FeedLookup | src/skopos/integrations/snyk_adapter.py:26-34 | with a loaded feed, the report is the feed's entry for the package, or an empty list when the package is absent |
| Snyk.UnreadableFeedIsEmpty | src/skopos/integrations/snyk_adapter.py:28-36 | a feed that cannot be loaded, or is not a dict, gives `{}` |
| Snyk.NoOfflineFile | src/skopos/integrations/snyk_adapter.py:26-45 | enabled with no offline file configured, the report is an empty vulnerability list |
| Snyk.MetadataIgnored | src/skopos/integrations/snyk_adapter.py:20-39 | the metadata argument never influences the result |
| Audit.CheckSpec | src/skopos/checker.py:112-165 | `check_package` as a function of the whitelist and the cache; the lemmas from `Audit.WhitelistFirst` to `Audit.SavedAuditNotConsulted` characterise it |
| Audit.WhitelistFirst | src/skopos/checker.py:113-117 | a whitelisted package passes with 100, and the cache is left alone |
| Audit.TrustedCacheHit | src/skopos/checker.py:119-123 | otherwise a cached score of 80 or more at "latest" is returned as a pass |
| Audit.LowCachedScoreFallsThrough | src/skopos/checker.py:119-123 | a cached score below 80 gives the verdict a cache miss gives |
| Audit.FetchFailure | src/skopos/checker.py:125-128 | a failed fetch or an empty document fails with 0 and saves nothing |
| Audit.FullAudit | src/skopos/checker.py:130-165 | a full audit passes iff the aggregated score is at least 80, and saves that score and the findings under the registry's version, keeping every other entry |
| Audit.PassedIffThreshold | src/skopos/checker.py:112-165 | on every path that returns, `passed` is `score >= 80` |
| Audit.CacheChangesOnlyAt | src/skopos/checker.py:119-162 | a check adds at most one cache entry, and that entry is for the checked package |
| Audit.SavedAuditNotConsulted | src/skopos/checker.py:119-162 | an audit saved under a version other than "latest" is not found by the next look-up |
| Audit.DisabledSnykAddsNoFinding | src/skopos/checker.py:143-151 | with the project's Snyk adapter disabled, a full audit has no "Snyk" finding |
| Audit.DepName | src/skopos/checker.py:204-210 | the extracted name has no '>', '=', '<' or '[' and no surrounding whitespace |
| Audit.FirstMark | src/skopos/checker.py:204-208 | the index of the first '>', '=', '<' or '[' of the dependency string, or its length when it has none |
| Audit.DepNameIsStrippedPrefix | src/skopos/checker.py:204-210 | the name is the stripped part of the dependency string before its first version or extras mark |
| Audit.DepNameIdempotent | src/skopos/checker.py:204-210 | extracting from an extracted name gives it back |
| Audit.ExampleDepName | src/skopos/checker.py:204-210 | "nonexistentpkg==0.0" is audited as "nonexistentpkg" |
| Audit.IsYes | src/skopos/checker.py:216-217 | an answer whose lower case is "y" (see the Audit.IsYes line under Left out) |
| Audit.AuditRun | src/skopos/checker.py:203-224 | the audit loop as a recursive function; the lemmas from `Audit.AuditKeepsIntegrity` to `Audit.ListedStaysListed` characterise it |
| Audit.AuditKeepsIntegrity | src/skopos/checker.py:211-219 | a verifying whitelist still verifies after the audit, because every trusted package is re-signed |
| Audit.AuditStopsAtFirst | src/skopos/checker.py:203-224 | the audit ends at the first dependency it blocks or errors on, and later dependencies are never checked |
| Audit.StopsWithin | src/skopos/checker.py:203-224 | an audit that ends blocked or on an error ends at one of its own dependencies: its position is at least the start and below the start plus their number |
| Audit.BlockedOnNo | src/skopos/checker.py:212-224 | a blocked run had an answer that was not yes among its answers |
| Audit.NoAnswerReadAfterNo | src/skopos/checker.py:212-224 | no answer after the first one that is not yes is ever read: cut the answers right after it and append anything, and the outcome and the final state are the same |
| Audit.ListedStaysListed | src/skopos/checker.py:203-219 | on a whitelist that starts out absent or ending in a newline, a whitelisted name stays whitelisted to the end of the audit, whatever names are trusted along the way |
| Audit.Auditor.CheckPackage | src/skopos/checker.py:112-165 | the verdict and the new cache are those of `CheckSpec` on the current whitelist and the old cache |
| Audit.Auditor.AuditOne | src/skopos/checker.py:204-224 | one loop iteration either ends the audit with the outcome `AuditRun` gives, or leaves a state from which `AuditRun` on the remaining dependencies and answers gives the same outcome |
| Audit.Auditor.AuditProject | src/skopos/checker.py:193-230 | no project file gives exit 1 and changes nothing; otherwise the exit, whitelist, signature and cache are those of `AuditRun` from the initial state |
| ConfigEdit.SetOfflineFile | src/skopos/checker.py:276-299 | the new config text; the lemmas from `ConfigEdit.MissingSectionAppended` to `ConfigEdit.OfflineLineReplaced` characterise it |
| ConfigEdit.SectionStart | src/skopos/checker.py:280 | `text.index(section)`: the header occurs there and nowhere earlier |
| ConfigEdit.SectionEnd | src/skopos/checker.py:282-288 | the section runs to the first "\n[" after its header, or to the end of the text |
| ConfigEdit.MissingSectionAppended | src/skopos/checker.py:297-299 | without the section, the result is exactly the old text with trailing whitespace stripped followed by the new section (a blank line, the header, `enabled = false`, `api_key = ""`, the offline line): it starts with the first, ends with the second and its length is the sum of theirs |
| ConfigEdit.OutsideSectionKept | src/skopos/checker.py:279-296 | with the section present, everything before it and everything from the next section on is unchanged |
| ConfigEdit.OfflineLineAppended | src/skopos/checker.py:292-296 | a section without `offline_file` becomes its right-stripped self, a newline, the line and a newline |
| ConfigEdit.AppendedLineFound | src/skopos/checker.py:279-296 | after that append, the section is still first found at the same index, and the text contains the line |
| ConfigEdit.OfflineLineReplaced | src/skopos/checker.py:290-296 | a section mentioning `offline_file` is replaced by the substitution's block in place |
| Packaging.AnyContains | scripts/ci_packaging_check.py:14 | `any(pat in n for n in names)` holds iff some name contains the pattern |
| Packaging.PackagingCheck | scripts/ci_packaging_check.py:8-27 | the code is one of 0, 2, 3, 4, 5 and 6; 2 iff no archive was found; 0 iff the first archive has README and LICENSE and neither leaked file; 3 to 6 each iff its check is the first to fail |
| Packaging.OnlyFirstArchive | scripts/ci_packaging_check.py:13 | archives after the first do not affect the result |
| Packaging.MoreMembersNoMissing | scripts/ci_packaging_check.py:14-25 | extra members can turn a pass only into a leak failure (5 or 6), never into a missing-file failure |
| Packaging.LicenseBySubstring | scripts/ci_packaging_check.py:17 | a member named "pkg/LICENSE.txt" satisfies the LICENSE check |

## Left out

- The registry fetch `fetch_pypi_data` (src/skopos/checker.py:103-109) does HTTP. Its result is the `registry` parameter, which is None when the request fails or the status is not 200.
- The heuristics, the score aggregator, the Socket adapter and `load_config` live in modules that are not part of this model. They are parameters.
- The audit cache is a map from (package, version) to (score, findings), held as state. skopos/cache.py is not part of this model, so any special meaning it gives the version "latest" is not modelled. `get_cached_audit(package, "latest")` is a look-up at the literal key (package, "latest"), and under that reading `Audit.SavedAuditNotConsulted` shows that a saved audit is not found by the next look-up.
- `check_velocity` delegates to `check_resurrection`, which is likewise a parameter.
- Heuristics are total functions in the model, so an exception raised inside one is not modelled.
- SHA-256 (FIPS 180-4) is abstract. The digest is modelled as a lowercase hex string of any length, not exactly 64 characters.
- The digest is computed over the whitelist's bytes, while names are read in text mode. The model uses one string for both and does not model encodings.
- Console output, `display_report`, argparse wiring in `main` after the integrity gate, `install_shell_hook`, `disable_hooks` and `init_config` are left out. They are rendering or plumbing.
- File-system calls are left out: exists, open, mkdir, read and write. Each file is an optional string, and the new config text is computed as a string.
- The regular-expression replacement at src/skopos/checker.py:291 is the `subst` parameter. Its `\s*` can span line breaks, and Python regex semantics are not modelled.
- Reading pyproject.toml is an input: `project` is the dependency list, or None when the file is absent.
  - TOML parse errors are not modelled.
  - Neither are non-string dependencies.
  - Neither is a `project` or `dependencies` value of the wrong type.
- `input()` is the `answers` sequence. End of input raises, which gives `AuditExit.Errored`.
- Audit.IsYes: `.lower() == "y"` is written as the answer being "y" or "Y"; these are the only strings whose lower case is "y", so this is the same test, stated without a model of Unicode case mapping.
- The load of the Snyk offline feed is the `feed` parameter. An open or JSON failure is None. `open` on a non-string path is not modelled.
- `load_config` is taken to return the same configuration in the constructor and in `_offline_file`.
- The glob order of dist/, the tar format and archive read errors in scripts/ci_packaging_check.py are inputs or left out. Printed messages are left out.
- `sys.exit` is not modelled: `Completed` is the normal end, and every other `AuditExit` corresponds to exit status 1 (an explicit `sys.exit(1)` or an uncaught exception).
