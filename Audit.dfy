/** The audit gate of src/skopos/checker.py: `check_package` (whitelist,
    then cache, then fetch, then a full audit that is saved) and the
    dependency loop of `audit_project`. The audit cache (skopos/cache.py,
    not part of this model) is a map from (package, version) to the saved
    score and findings; versions are kept as the JSON values they are. */
module Audit {
  import opened Values
  import opened Text
  import opened Whitelist
  import opened Forensics
  import Snyk

  type CacheKey = (string, Value)
  type Cache = map<CacheKey, (int, Findings)>

  /** A score at or above this passes, and a cached one is trusted. */
  const PassScore: int := 80

  /** What `check_package` returns, or `Crashed` when it raises: the
      registry answered with a truthy JSON value that is not a dict, or
      its "info" is not a dict. */
  datatype Verdict = Verdict(passed: bool, score: int) | Crashed

  /** The key the cache is consulted at. */
  function LatestKey(package: string): CacheKey {
    (package, Str("latest"))
  }

  /** A cached audit `check_package` returns without re-auditing. */
  predicate TrustedHit(cache: Cache, package: string) {
    LatestKey(package) in cache && cache[LatestKey(package)].0 >= PassScore
  }

  /** The version a full audit is saved under: `info.get("version", "0.0.0")`. */
  function SaveVersion(info: map<string, Value>): Value {
    Get(info, "version", Str("0.0.0"))
  }

  /** `check_package(package)` as a function of the whitelist and the cache:
      the verdict and the cache afterwards. */
  function CheckSpec(whitelist: Option<string>, cache: Cache, package: string, env: Environment): (Verdict, Cache) {
    if Listed(whitelist, package) then (Verdict(true, 100), cache)
    else if TrustedHit(cache, package) then (Verdict(true, cache[LatestKey(package)].0), cache)
    else match env.registry(package)
      case None => (Verdict(false, 0), cache)
      case Some(data) =>
        if !Truthy(data) then (Verdict(false, 0), cache)
        else if !data.Object? then (Crashed, cache)
        else
          var info := Get(data.fields, "info", Empty);
          var findings := AuditFindings(package, data, env);
          var score := env.heuristics.aggregate(findings);
          if !info.Object? then (Crashed, cache)
          else (Verdict(score >= PassScore, score), cache[(package, SaveVersion(info.fields)) := (score, findings)])
  }

  /** The registry gave a document a full audit runs on. */
  predicate Auditable(env: Environment, package: string) {
    && env.registry(package).Some?
    && env.registry(package).value.Object?
    && env.registry(package).value.fields != map[]
    && Get(env.registry(package).value.fields, "info", Empty).Object?
  }

  /** Where a full audit is saved: under the registry's version. */
  function SavedKey(env: Environment, package: string): (key: CacheKey)
    requires Auditable(env, package)
    ensures key.0 == package
  {
    (package, SaveVersion(Get(env.registry(package).value.fields, "info", Empty).fields))
  }

  /** What a full audit saves: the aggregated score and the findings. */
  function SavedEntry(env: Environment, package: string): (int, Findings)
    requires Auditable(env, package)
  {
    var findings := AuditFindings(package, env.registry(package).value, env);
    (env.heuristics.aggregate(findings), findings)
  }

  // ---------------------------------------------------------------------
  // check_package

  /** A whitelisted package passes with 100; the cache is not consulted. */
  lemma WhitelistFirst(whitelist: Option<string>, cache: Cache, package: string, env: Environment)
    requires Listed(whitelist, package)
    ensures CheckSpec(whitelist, cache, package, env) == (Verdict(true, 100), cache)
  {
  }

  /** Otherwise a cached score of 80 or more is returned as it is. */
  lemma TrustedCacheHit(whitelist: Option<string>, cache: Cache, package: string, env: Environment)
    requires !Listed(whitelist, package) && LatestKey(package) in cache
    requires cache[LatestKey(package)].0 >= PassScore
    ensures CheckSpec(whitelist, cache, package, env) == (Verdict(true, cache[LatestKey(package)].0), cache)
  {
  }

  /** A lower cached score is ignored: the verdict is the one a cache miss
      gives. */
  lemma LowCachedScoreFallsThrough(whitelist: Option<string>, cache: Cache, package: string, env: Environment)
    requires LatestKey(package) in cache && cache[LatestKey(package)].0 < PassScore
    ensures CheckSpec(whitelist, cache, package, env).0 ==
            CheckSpec(whitelist, cache - {LatestKey(package)}, package, env).0
  {
  }

  /** A failed fetch, or an empty document, fails with 0 and saves nothing. */
  lemma FetchFailure(whitelist: Option<string>, cache: Cache, package: string, env: Environment)
    requires !Listed(whitelist, package) && !TrustedHit(cache, package)
    requires env.registry(package).None? || !Truthy(env.registry(package).value)
    ensures CheckSpec(whitelist, cache, package, env) == (Verdict(false, 0), cache)
  {
  }

  /** A full audit saves the aggregated score and the findings under
      (package, version), keeping every other entry, and passes iff the
      score is at least 80. */
  lemma FullAudit(whitelist: Option<string>, cache: Cache, package: string, env: Environment)
    requires !Listed(whitelist, package) && !TrustedHit(cache, package) && Auditable(env, package)
    ensures var score := SavedEntry(env, package).0;
            CheckSpec(whitelist, cache, package, env) ==
            (Verdict(score >= PassScore, score), cache[SavedKey(env, package) := SavedEntry(env, package)])
  {
    var data := env.registry(package).value;
    var info := Get(data.fields, "info", Empty);
    var findings := AuditFindings(package, data, env);
    assert Truthy(data);
    assert SavedKey(env, package) == (package, SaveVersion(info.fields));
    assert SavedEntry(env, package) == (env.heuristics.aggregate(findings), findings);
  }

  /** On every path, `passed` is `score >= 80`. */
  lemma PassedIffThreshold(whitelist: Option<string>, cache: Cache, package: string, env: Environment)
    requires CheckSpec(whitelist, cache, package, env).0.Verdict?
    ensures CheckSpec(whitelist, cache, package, env).0.passed <==>
            CheckSpec(whitelist, cache, package, env).0.score >= PassScore
  {
    if !Listed(whitelist, package) && !TrustedHit(cache, package) && Auditable(env, package) {
      FullAudit(whitelist, cache, package, env);
    }
  }

  /** A check either leaves the cache alone or saves one full audit. */
  lemma CacheShape(whitelist: Option<string>, cache: Cache, package: string, env: Environment)
    ensures var saved := CheckSpec(whitelist, cache, package, env).1;
            saved == cache ||
            (Auditable(env, package) && saved == cache[SavedKey(env, package) := SavedEntry(env, package)])
  {
  }

  lemma UpdateOnlyAt(cache: Cache, key: CacheKey, entry: (int, Findings))
    ensures var saved := cache[key := entry];
            && cache.Keys <= saved.Keys
            && (forall k :: k in saved && k.0 != key.0 ==> k in cache && saved[k] == cache[k])
            && |saved.Keys - cache.Keys| <= 1
  {
    var saved := cache[key := entry];
    assert saved.Keys - cache.Keys <= {key};
  }

  /** The cache changes only by the audited package's entry. */
  lemma CacheChangesOnlyAt(whitelist: Option<string>, cache: Cache, package: string, env: Environment)
    ensures var saved := CheckSpec(whitelist, cache, package, env).1;
            && cache.Keys <= saved.Keys
            && (forall k :: k in saved && k.0 != package ==> k in cache && saved[k] == cache[k])
            && |saved.Keys - cache.Keys| <= 1
  {
    CacheShape(whitelist, cache, package, env);
    var saved := CheckSpec(whitelist, cache, package, env).1;
    if saved != cache {
      UpdateOnlyAt(cache, SavedKey(env, package), SavedEntry(env, package));
    }
  }

  /** A saved audit is found again only when its version is "latest": the
      cache is consulted at (package, "latest") and written at the
      version from the registry. */
  lemma SavedAuditNotConsulted(whitelist: Option<string>, cache: Cache, package: string, env: Environment)
    requires !Listed(whitelist, package) && LatestKey(package) !in cache && Auditable(env, package)
    requires SaveVersion(Get(env.registry(package).value.fields, "info", Empty).fields) != Str("latest")
    ensures !TrustedHit(CheckSpec(whitelist, cache, package, env).1, package)
  {
  }

  /** With the Snyk adapter of this project and its integration disabled,
      an audit has no "Snyk" finding. */
  lemma DisabledSnykAddsNoFinding(package: string, data: Value, env: Environment, cfg: Value, feed: Option<Value>)
    requires Snyk.Init(cfg).Some? && !Snyk.IsEnabled(Snyk.Init(cfg).value)
    requires env.snyk(package, data) == Snyk.SnykOutcome(cfg, feed, package, data)
    ensures Lookup(AuditFindings(package, data, env), "Snyk") == None
  {
    AuditFindingsEnrichment(package, data, env);
  }

  // ---------------------------------------------------------------------
  // audit_project

  predicate IsMark(c: char) {
    c == '>' || c == '=' || c == '<' || c == '['
  }

  /** The name a dependency string is audited under:
      `dep.split(">")[0].split("=")[0].split("<")[0].split("[")[0].strip()`. */
  function DepName(dep: string): (name: string)
    ensures '>' !in name && '=' !in name && '<' !in name && '[' !in name
    ensures Trimmed(name)
  {
    Strip(SplitChain(dep))
  }

  /** The four `split(c)[0]` calls, in order. */
  function SplitChain(dep: string): string {
    Before(Before(Before(Before(dep, '>'), '='), '<'), '[')
  }

  /** Index of the first '>', '=', '<' or '[' in `dep`, or its length. */
  function FirstMark(dep: string): (k: nat)
    ensures k <= |dep|
    ensures forall i :: 0 <= i < k ==> !IsMark(dep[i])
    ensures k < |dep| ==> IsMark(dep[k])
  {
    if dep == [] || IsMark(dep[0]) then 0 else 1 + FirstMark(dep[1..])
  }

  lemma BeforeCons(c: char, t: string, m: char)
    requires c != m
    ensures Before([c] + t, m) == [c] + Before(t, m)
  {
    var s := [c] + t;
    assert s[0] == c && s[1..] == t;
  }

  /** A leading character that is no mark passes through all four splits. */
  lemma SplitChainCons(c: char, t: string)
    requires !IsMark(c)
    ensures SplitChain([c] + t) == [c] + SplitChain(t)
  {
    var b1 := Before(t, '>');
    var b2 := Before(b1, '=');
    var b3 := Before(b2, '<');
    BeforeCons(c, t, '>');
    BeforeCons(c, b1, '=');
    BeforeCons(c, b2, '<');
    BeforeCons(c, b3, '[');
  }

  lemma FirstMarkCons(dep: string)
    requires dep != [] && !IsMark(dep[0])
    ensures dep[..FirstMark(dep)] == [dep[0]] + dep[1..][..FirstMark(dep[1..])]
  {
    var k := FirstMark(dep);
    assert k == 1 + FirstMark(dep[1..]);
    ConsPrefix(dep, k);
  }

  /** A non-empty prefix is the head followed by a prefix of the tail. */
  lemma ConsPrefix<T>(s: seq<T>, k: nat)
    requires 1 <= k <= |s|
    ensures s[..k] == [s[0]] + s[1..][..k - 1]
  {
  }

  lemma {:induction false} SplitChainIsPrefix(dep: string)
    ensures SplitChain(dep) == dep[..FirstMark(dep)]
  {
    if dep != [] && !IsMark(dep[0]) {
      SplitChainIsPrefix(dep[1..]);
      assert dep == [dep[0]] + dep[1..];
      SplitChainCons(dep[0], dep[1..]);
      FirstMarkCons(dep);
    } else if dep != [] {
      SplitChainAtMark(dep);
    }
  }

  /** `split(c)[0]` keeps the first character unless it is `c`. */
  lemma BeforeHead(s: string, c: char)
    ensures s == [] || s[0] == c ==> Before(s, c) == []
    ensures s != [] && s[0] != c ==> Before(s, c) != [] && Before(s, c)[0] == s[0]
  {
  }

  lemma SplitChainAtMark(dep: string)
    requires dep != [] && IsMark(dep[0])
    ensures SplitChain(dep) == []
  {
    var b1 := Before(dep, '>');
    var b2 := Before(b1, '=');
    var b3 := Before(b2, '<');
    BeforeHead(dep, '>');
    BeforeHead(b1, '=');
    BeforeHead(b2, '<');
    BeforeHead(b3, '[');
  }

  /** The extracted name is the stripped prefix before the first version
      or extras mark. */
  lemma DepNameIsStrippedPrefix(dep: string)
    ensures DepName(dep) == Strip(dep[..FirstMark(dep)])
  {
    SplitChainIsPrefix(dep);
  }

  lemma {:induction false} FirstMarkAt(dep: string, k: nat)
    requires k <= |dep|
    requires forall i :: 0 <= i < k ==> !IsMark(dep[i])
    requires k < |dep| ==> IsMark(dep[k])
    ensures FirstMark(dep) == k
  {
    if k > 0 {
      FirstMarkAt(dep[1..], k - 1);
    }
  }

  lemma {:induction false} BeforeAbsent(s: string, c: char)
    requires c !in s
    ensures Before(s, c) == s
  {
    if s != [] {
      assert c !in s[1..];
      BeforeAbsent(s[1..], c);
      assert s == [s[0]] + s[1..];
    }
  }

  /** Extraction is idempotent. */
  lemma DepNameIdempotent(dep: string)
    ensures DepName(DepName(dep)) == DepName(dep)
  {
    var n := DepName(dep);
    BeforeAbsent(n, '>');
    BeforeAbsent(n, '=');
    BeforeAbsent(n, '<');
    BeforeAbsent(n, '[');
  }

  /** A name followed by a mark is extracted as that name. */
  lemma NameBeforeMark(dep: string, name: string)
    requires FirstMark(dep) == |name| && dep[..|name|] == name && Trimmed(name)
    ensures DepName(dep) == name
  {
    DepNameIsStrippedPrefix(dep);
  }

  /** A pinned requirement is audited under its bare name. */
  lemma ExampleDepName(d: string)
    requires d == "nonexistentpkg==0.0"
    ensures DepName(d) == "nonexistentpkg"
  {
    var name := "nonexistentpkg";
    assert d == name + "==0.0";
    assert forall i :: 0 <= i < |name| ==> d[i] == name[i];
    assert forall i :: 0 <= i < |name| ==> !IsMark(d[i]);
    assert IsMark(d[14]);
    FirstMarkAt(d, |name|);
    assert d[..|name|] == name;
    assert name[0] == 'n' && name[|name| - 1] == 'g';
    assert Trimmed(name);
    NameBeforeMark(d, name);
  }

  /** `input(...).lower() == "y"`: "y" and "Y" are the only strings whose
      lower case is "y". */
  predicate IsYes(answer: string) {
    answer == "y" || answer == "Y"
  }

  /** How the audit ends: all dependencies accepted; blocked at a failing
      dependency whose prompt was not answered yes (exit 1); an exception
      while auditing one (a crashing check, or end of input at the
      prompt); or no pyproject.toml (exit 1). */
  datatype AuditExit = Completed | Blocked(at: nat) | Errored(at: nat) | NoProject

  /** The persistent state an audit reads and writes. */
  datatype State = State(whitelist: Option<string>, signature: Option<string>, cache: Cache)

  /** A package check: the verdict and the new cache from the whitelist,
      the cache and the name. */
  type Checker = (Option<string>, Cache, string) -> (Verdict, Cache)

  /** `check_package` against a fixed environment. */
  function CheckerOf(env: Environment): Checker {
    (whitelist: Option<string>, cache: Cache, package: string) => CheckSpec(whitelist, cache, package, env)
  }

  lemma CheckerOfIs(env: Environment, whitelist: Option<string>, cache: Cache, package: string)
    ensures CheckerOf(env)(whitelist, cache, package) == CheckSpec(whitelist, cache, package, env)
  {
  }

  /** The audit loop over `deps` (the first one at position `at`), with the
      prompt answers still to be read. */
  function AuditRun(st: State, deps: seq<string>, answers: seq<string>, at: nat, check: Checker, hash: Hasher): (AuditExit, State)
    decreases |deps|
  {
    if deps == [] then (Completed, st)
    else
      var name := DepName(deps[0]);
      var result := check(st.whitelist, st.cache, name);
      var st1 := st.(cache := result.1);
      if result.0.Crashed? then (Errored(at), st1)
      else if result.0.passed then AuditRun(st1, deps[1..], answers, at + 1, check, hash)
      else if answers == [] then (Errored(at), st1)
      else if IsYes(answers[0]) then
        var text := AfterAdd(st1.whitelist, name);
        AuditRun(State(Some(text), Some(hash(text)), st1.cache), deps[1..], answers[1..], at + 1, check, hash)
      else (Blocked(at), st1)
  }

  /** The audit keeps the whitelist verifiable: trusting a package re-signs. */
  lemma {:induction false} AuditKeepsIntegrity(st: State, deps: seq<string>, answers: seq<string>, at: nat, check: Checker, hash: Hasher)
    requires Verified(st.whitelist, st.signature, hash)
    ensures var end := AuditRun(st, deps, answers, at, check, hash).1;
            Verified(end.whitelist, end.signature, hash)
    decreases |deps|
  {
    if deps != [] {
      var name := DepName(deps[0]);
      var result := check(st.whitelist, st.cache, name);
      var st1 := st.(cache := result.1);
      if result.0.Verdict? {
        if result.0.passed {
          AuditKeepsIntegrity(st1, deps[1..], answers, at + 1, check, hash);
        } else if answers != [] && IsYes(answers[0]) {
          var text := AfterAdd(st1.whitelist, name);
          SignVerifies(text, hash);
          AuditKeepsIntegrity(State(Some(text), Some(hash(text)), st1.cache), deps[1..], answers[1..], at + 1, check, hash);
        }
      }
    }
  }

  /** The audit stops at the first dependency it blocks or errors on:
      dependencies after it are never visited. */
  lemma {:induction false} AuditStopsAtFirst(st: State, deps: seq<string>, more: seq<string>, answers: seq<string>, at: nat, check: Checker, hash: Hasher)
    requires !AuditRun(st, deps, answers, at, check, hash).0.Completed?
    ensures AuditRun(st, deps + more, answers, at, check, hash) == AuditRun(st, deps, answers, at, check, hash)
    decreases |deps|
  {
    assert deps != [];
    assert (deps + more)[0] == deps[0];
    assert (deps + more)[1..] == deps[1..] + more;
    var name := DepName(deps[0]);
    var result := check(st.whitelist, st.cache, name);
    var st1 := st.(cache := result.1);
    if result.0.Verdict? {
      if result.0.passed {
        AuditStopsAtFirst(st1, deps[1..], more, answers, at + 1, check, hash);
      } else if answers != [] && IsYes(answers[0]) {
        var text := AfterAdd(st1.whitelist, name);
        AuditStopsAtFirst(State(Some(text), Some(hash(text)), st1.cache), deps[1..], more, answers[1..], at + 1, check, hash);
      }
    }
  }

  /** One step of the loop, by how the check of the first dependency
      ends: a crash, a pass, a failure with no answer left, a yes, a no. */
  lemma StepStops(st: State, deps: seq<string>, answers: seq<string>, at: nat, check: Checker, hash: Hasher, v: Verdict, c: Cache)
    requires deps != [] && check(st.whitelist, st.cache, DepName(deps[0])) == (v, c)
    requires v.Crashed? || (!v.passed && answers == [])
    ensures AuditRun(st, deps, answers, at, check, hash) == (Errored(at), st.(cache := c))
  {
  }

  lemma StepPassed(st: State, deps: seq<string>, answers: seq<string>, at: nat, check: Checker, hash: Hasher, v: Verdict, c: Cache)
    requires deps != [] && check(st.whitelist, st.cache, DepName(deps[0])) == (v, c)
    requires v.Verdict? && v.passed
    ensures AuditRun(st, deps, answers, at, check, hash) == AuditRun(st.(cache := c), deps[1..], answers, at + 1, check, hash)
  {
  }

  lemma StepTrusted(st: State, deps: seq<string>, answers: seq<string>, at: nat, check: Checker, hash: Hasher, v: Verdict, c: Cache)
    requires deps != [] && check(st.whitelist, st.cache, DepName(deps[0])) == (v, c)
    requires v.Verdict? && !v.passed && answers != [] && IsYes(answers[0])
    ensures var text := AfterAdd(st.whitelist, DepName(deps[0]));
            AuditRun(st, deps, answers, at, check, hash) ==
            AuditRun(State(Some(text), Some(hash(text)), c), deps[1..], answers[1..], at + 1, check, hash)
  {
  }

  lemma StepBlocked(st: State, deps: seq<string>, answers: seq<string>, at: nat, check: Checker, hash: Hasher, v: Verdict, c: Cache)
    requires deps != [] && check(st.whitelist, st.cache, DepName(deps[0])) == (v, c)
    requires v.Verdict? && !v.passed && answers != [] && !IsYes(answers[0])
    ensures AuditRun(st, deps, answers, at, check, hash) == (Blocked(at), st.(cache := c))
  {
  }

  /** A pass, or a failure answered yes, goes on with the next dependency
      and the same or the remaining answers. */
  lemma StepContinues(st: State, deps: seq<string>, answers: seq<string>, at: nat, check: Checker, hash: Hasher)
    returns (st2: State, rest: seq<string>)
    requires deps != []
    requires var v := check(st.whitelist, st.cache, DepName(deps[0])).0;
             v.Verdict? && (v.passed || (answers != [] && IsYes(answers[0])))
    ensures rest == answers || (answers != [] && IsYes(answers[0]) && rest == answers[1..])
    ensures AuditRun(st, deps, answers, at, check, hash) == AuditRun(st2, deps[1..], rest, at + 1, check, hash)
  {
    var result := check(st.whitelist, st.cache, DepName(deps[0]));
    if result.0.passed {
      st2, rest := st.(cache := result.1), answers;
      StepPassed(st, deps, answers, at, check, hash, result.0, result.1);
    } else {
      var text := AfterAdd(st.whitelist, DepName(deps[0]));
      st2, rest := State(Some(text), Some(hash(text)), result.1), answers[1..];
      StepTrusted(st, deps, answers, at, check, hash, result.0, result.1);
    }
  }

  /** One step, whatever its outcome: the audit goes on from a new state
      with the same or the remaining answers, or stops at this dependency,
      blocked only on an answer that is not yes. */
  lemma Step(st: State, deps: seq<string>, answers: seq<string>, at: nat, check: Checker, hash: Hasher)
    returns (goesOn: bool, st2: State, rest: seq<string>)
    requires deps != []
    ensures var run := AuditRun(st, deps, answers, at, check, hash);
            if goesOn then
              && (rest == answers || (answers != [] && IsYes(answers[0]) && rest == answers[1..]))
              && run == AuditRun(st2, deps[1..], rest, at + 1, check, hash)
            else
              run.0 == Errored(at) || (run.0 == Blocked(at) && answers != [] && !IsYes(answers[0]))
  {
    var result := check(st.whitelist, st.cache, DepName(deps[0]));
    if result.0.Verdict? && (result.0.passed || (answers != [] && IsYes(answers[0]))) {
      goesOn := true;
      st2, rest := StepContinues(st, deps, answers, at, check, hash);
    } else if result.0.Crashed? || answers == [] {
      goesOn, st2, rest := false, st, answers;
      StepStops(st, deps, answers, at, check, hash, result.0, result.1);
    } else {
      goesOn, st2, rest := false, st, answers;
      StepBlocked(st, deps, answers, at, check, hash, result.0, result.1);
    }
  }

  /** An audit that stops, blocked or on an error, stops at one of its own
      dependencies: started at position 0, it names one of them. */
  lemma {:induction false} StopsWithin(st: State, deps: seq<string>, answers: seq<string>, at: nat, check: Checker, hash: Hasher, stop: AuditExit)
    requires AuditRun(st, deps, answers, at, check, hash).0 == stop
    requires stop.Blocked? || stop.Errored?
    ensures at <= stop.at
    ensures stop.at < at + |deps|
    decreases |deps|
  {
    assert deps != [];
    var goesOn, st2, rest := Step(st, deps, answers, at, check, hash);
    if goesOn {
      StopsWithin(st2, deps[1..], rest, at + 1, check, hash, stop);
    }
  }

  /** Answer `j` is the first one that is not yes. */
  predicate FirstNo(answers: seq<string>, j: nat) {
    j < |answers| && !IsYes(answers[j]) && forall i :: 0 <= i < j ==> IsYes(answers[i])
  }

  /** A yes in front moves the first non-yes answer one place on. */
  lemma FirstNoShift(answers: seq<string>, j: nat)
    requires answers != [] && IsYes(answers[0]) && FirstNo(answers[1..], j)
    ensures FirstNo(answers, j + 1)
  {
    forall i | 0 < i < j + 1
      ensures IsYes(answers[i])
    {
      assert answers[i] == answers[1..][i - 1];
    }
  }

  /** A blocked audit had an answer that was not yes; which one it read is
      `NoAnswerReadAfterNo`'s concern. */
  lemma {:induction false} BlockedOnNo(st: State, deps: seq<string>, answers: seq<string>, at: nat, check: Checker, hash: Hasher)
    requires AuditRun(st, deps, answers, at, check, hash).0.Blocked?
    ensures exists j :: FirstNo(answers, j)
    decreases |deps|
  {
    assert deps != [];
    var goesOn, st2, rest := Step(st, deps, answers, at, check, hash);
    if goesOn {
      BlockedOnNo(st2, deps[1..], rest, at + 1, check, hash);
      var j :| FirstNo(rest, j);
      if rest != answers {
        FirstNoShift(answers, j);
      }
    } else {
      assert FirstNo(answers, 0);
    }
  }

  /** The answers cut after answer `j`, then anything: the same first answer. */
  lemma CutHead(answers: seq<string>, j: nat, more: seq<string>)
    requires j < |answers|
    ensures var cut := answers[..j + 1] + more;
            cut != [] && cut[0] == answers[0]
  {
  }

  /** A yes in front of the first non-yes answer: dropping it moves the cut
      one place back. */
  lemma CutTail(answers: seq<string>, j: nat, more: seq<string>)
    requires FirstNo(answers, j) && IsYes(answers[0])
    ensures 0 < j
    ensures (answers[..j + 1] + more)[1..] == answers[1..][..j] + more
    ensures FirstNo(answers[1..], j - 1)
  {
    assert answers[..j + 1][1..] == answers[1..][..j];
    forall i | 0 <= i < j - 1
      ensures IsYes(answers[1..][i])
    {
      assert answers[1..][i] == answers[i + 1];
    }
    assert answers[1..][j - 1] == answers[j];
  }

  /** The audit reads no answer after the first one that is not yes: the
      answers after it may be anything. */
  lemma {:induction false} NoAnswerReadAfterNo(st: State, deps: seq<string>, answers: seq<string>, at: nat, check: Checker, hash: Hasher, j: nat, more: seq<string>)
    requires FirstNo(answers, j)
    ensures AuditRun(st, deps, answers[..j + 1] + more, at, check, hash) == AuditRun(st, deps, answers, at, check, hash)
    decreases |deps|
  {
    if deps != [] {
      var cut := answers[..j + 1] + more;
      CutHead(answers, j, more);
      var result := check(st.whitelist, st.cache, DepName(deps[0]));
      var v, c := result.0, result.1;
      if v.Crashed? {
        StepStops(st, deps, answers, at, check, hash, v, c);
        StepStops(st, deps, cut, at, check, hash, v, c);
      } else if v.passed {
        StepPassed(st, deps, answers, at, check, hash, v, c);
        StepPassed(st, deps, cut, at, check, hash, v, c);
        NoAnswerReadAfterNo(st.(cache := c), deps[1..], answers, at + 1, check, hash, j, more);
      } else if IsYes(answers[0]) {
        StepTrusted(st, deps, answers, at, check, hash, v, c);
        StepTrusted(st, deps, cut, at, check, hash, v, c);
        CutTail(answers, j, more);
        var text := AfterAdd(st.whitelist, DepName(deps[0]));
        NoAnswerReadAfterNo(State(Some(text), Some(hash(text)), c), deps[1..], answers[1..], at + 1, check, hash, j - 1, more);
      } else {
        StepBlocked(st, deps, answers, at, check, hash, v, c);
        StepBlocked(st, deps, cut, at, check, hash, v, c);
      }
    }
  }

  /** A listed package stays listed for the rest of the audit, whatever
      the names the audit trusts, as long as the whitelist starts out
      ending in a newline. */
  lemma {:induction false} ListedStaysListed(st: State, deps: seq<string>, answers: seq<string>, at: nat, check: Checker, hash: Hasher, name: string)
    requires WellFormed(st.whitelist) && Listed(st.whitelist, name)
    ensures Listed(AuditRun(st, deps, answers, at, check, hash).1.whitelist, name)
    decreases |deps|
  {
    if deps != [] {
      var n := DepName(deps[0]);
      var result := check(st.whitelist, st.cache, n);
      var st1 := st.(cache := result.1);
      if result.0.Verdict? {
        if result.0.passed {
          ListedStaysListed(st1, deps[1..], answers, at + 1, check, hash, name);
        } else if answers != [] && IsYes(answers[0]) {
          var text := AfterAdd(st1.whitelist, n);
          AddKeepsListed(st1.whitelist, n, name);
          AddKeepsWellFormed(st1.whitelist, n);
          ListedStaysListed(State(Some(text), Some(hash(text)), st1.cache), deps[1..], answers[1..], at + 1, check, hash, name);
        }
      }
    }
  }

  /** The auditor's persistent state: the whitelist files and the cache. */
  class Auditor {
    const store: WhitelistStore
    var cache: Cache

    constructor (store: WhitelistStore, cache: Cache)
      ensures this.store == store && this.cache == cache
    {
      this.store := store;
      this.cache := cache;
    }

    /** `check_package(package)`. */
    method CheckPackage(package: string, env: Environment) returns (v: Verdict)
      modifies this`cache
      ensures (v, cache) == CheckSpec(store.whitelist, old(cache), package, env)
    {
      if store.IsWhitelisted(package) {
        return Verdict(true, 100);
      }
      var key := LatestKey(package);
      if key in cache {
        var cached := cache[key];
        if cached.0 >= PassScore {
          return Verdict(true, cached.0);
        }
      }
      var fetched := env.registry(package);
      if fetched.None? || !Truthy(fetched.value) {
        return Verdict(false, 0);
      }
      var data := fetched.value;
      if !data.Object? {
        return Crashed;
      }
      var info := Get(data.fields, "info", Empty);
      var findings := AuditFindings(package, data, env);
      var score := env.heuristics.aggregate(findings);
      if !info.Object? {
        return Crashed;
      }
      cache := cache[(package, SaveVersion(info.fields)) := (score, findings)];
      v := Verdict(score >= PassScore, score);
    }

    /** One pass of the loop of `audit_project`: checks the first of `deps`
        (at position `at`) and, when it fails, reads one answer. Either the
        audit stops here with `exit`, or it goes on with the rest of the
        dependencies and the answers after the `used` ones. */
    method AuditOne(deps: seq<string>, answers: seq<string>, at: nat, env: Environment)
      returns (stop: bool, exit: AuditExit, used: nat)
      requires deps != []
      modifies this, store
      ensures used <= |answers|
      ensures var before := State(old(store.whitelist), old(store.signature), old(cache));
              var after := State(store.whitelist, store.signature, cache);
              var run := AuditRun(before, deps, answers, at, CheckerOf(env), store.hash);
              if stop then run == (exit, after)
              else run == AuditRun(after, deps[1..], answers[used..], at + 1, CheckerOf(env), store.hash)
    {
      ghost var check := CheckerOf(env);
      ghost var before := State(store.whitelist, store.signature, cache);
      var name := DepName(deps[0]);
      var v := CheckPackage(name, env);
      CheckerOfIs(env, before.whitelist, before.cache, name);
      if v.Crashed? || (!v.passed && answers == []) {
        StepStops(before, deps, answers, at, check, store.hash, v, cache);
        return true, Errored(at), 0;
      }
      if v.passed {
        StepPassed(before, deps, answers, at, check, store.hash, v, cache);
        return false, Completed, 0;
      }
      if !IsYes(answers[0]) {
        StepBlocked(before, deps, answers, at, check, store.hash, v, cache);
        return true, Blocked(at), 1;
      }
      StepTrusted(before, deps, answers, at, check, store.hash, v, cache);
      store.Add(name);
      var _ := store.Sign();
      return false, Completed, 1;
    }

    /** `audit_project`: `project` is the dependency list of pyproject.toml
        (None when the file is absent), `answers` the lines typed at the
        prompts, in order. */
    method AuditProject(project: Option<seq<string>>, env: Environment, answers: seq<string>) returns (exit: AuditExit)
      modifies this, store
      ensures project.None? ==>
                exit == NoProject && cache == old(cache) &&
                store.whitelist == old(store.whitelist) && store.signature == old(store.signature)
      ensures project.Some? ==>
                (exit, State(store.whitelist, store.signature, cache)) ==
                AuditRun(State(old(store.whitelist), old(store.signature), old(cache)), project.value, answers, 0, CheckerOf(env), store.hash)
    {
      if project.None? {
        return NoProject;
      }
      var deps := project.value;
      ghost var check := CheckerOf(env);
      ghost var goal := AuditRun(State(store.whitelist, store.signature, cache), deps, answers, 0, check, store.hash);
      var i := 0;
      var rest, ans := deps, answers;
      while rest != []
        invariant AuditRun(State(store.whitelist, store.signature, cache), rest, ans, i, check, store.hash) == goal
        decreases |rest|
      {
        var stop, e, used := AuditOne(rest, ans, i, env);
        if stop {
          return e;
        }
        i := i + 1;
        rest, ans := rest[1..], ans[used..];
      }
      return Completed;
    }
  }
}
