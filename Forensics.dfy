/** The findings that `check_package` in src/skopos/checker.py collects.
    The heuristics and the score aggregator live in skopos/checker_logic.py,
    which is not part of this model: they are parameters here. */
module Forensics {
  import opened Values

  /** One heuristic's verdict and its evidence. `flag` is "passed" for
      every heuristic except Typosquatting, where it is "is a squat". */
  datatype Finding = Finding(flag: bool, evidence: Value)

  /** An insertion-ordered dict from heuristic name to finding. */
  type Findings = seq<(string, Finding)>

  function Keys(d: Findings): (ks: seq<string>)
    ensures |ks| == |d|
  {
    if d == [] then [] else [d[0].0] + Keys(d[1..])
  }

  /** The i-th key is the i-th entry's. */
  lemma {:induction false} KeysAt(d: Findings)
    ensures forall i :: 0 <= i < |d| ==> Keys(d)[i] == d[i].0
  {
    if d != [] {
      KeysAt(d[1..]);
    }
  }

  /** No key occurs twice, as in a Python dict. */
  predicate UniqueKeys(d: Findings) {
    forall i, j :: 0 <= i < j < |d| ==> d[i].0 != d[j].0
  }

  /** `d.get(k)`. */
  function Lookup(d: Findings, k: string): (r: Option<Finding>)
    ensures r.Some? <==> k in Keys(d)
  {
    if d == [] then None else if d[0].0 == k then Some(d[0].1) else Lookup(d[1..], k)
  }

  /** `d[k] = v`: replaces the value in place when the key is present,
      appends the key otherwise. */
  function Assign(d: Findings, k: string, v: Finding): (r: Findings)
    ensures Lookup(r, k) == Some(v)
    ensures forall j :: j != k ==> Lookup(r, j) == Lookup(d, j)
    ensures k in Keys(d) ==> Keys(r) == Keys(d)
    ensures k !in Keys(d) ==> Keys(r) == Keys(d) + [k]
    decreases |d|
  {
    if d == [] then [(k, v)]
    else if d[0].0 == k then
      var r := [(k, v)] + d[1..];
      assert r[0] == (k, v) && r[1..] == d[1..];
      r
    else
      var rest := Assign(d[1..], k, v);
      var r := [d[0]] + rest;
      assert r[0] == d[0] && r[1..] == rest;
      assert Keys(r) == [d[0].0] + Keys(rest);
      assert k in Keys(d) <==> k in Keys(d[1..]);
      assert Keys(d) + [k] == [d[0].0] + (Keys(d[1..]) + [k]);
      r
  }

  /** The heuristics of skopos/checker_logic.py and its aggregator. */
  datatype Heuristics = Heuristics(
    typosquat: string -> Finding,
    identity: (string, Value) -> Finding,
    reputation: (string, Value) -> Finding,
    resurrection: Value -> Finding,
    payload: (string, Value) -> Finding,
    aggregate: Findings -> int)

  /** What one audit depends on besides the whitelist and the cache: the
      registry fetch (None: request failed or status not 200), the
      heuristics, and the Snyk and Socket adapters (constructed and asked
      to enrich a package with its metadata). */
  datatype Environment = Environment(
    registry: string -> Option<Value>,
    heuristics: Heuristics,
    snyk: (string, Value) -> Outcome,
    socket: (string, Value) -> Outcome)

  const HeuristicOrder: seq<string> := ["Typosquatting", "Identity", "Reputation", "Resurrection", "Payload"]

  /** The findings every full audit starts with, in this order. */
  function BaseFindings(h: Heuristics, package: string, data: Value): (r: Findings)
    ensures Keys(r) == HeuristicOrder
  {
    var r := [("Typosquatting", h.typosquat(package)),
              ("Identity", h.identity(package, data)),
              ("Reputation", h.reputation(package, data)),
              ("Resurrection", h.resurrection(data)),
              ("Payload", h.payload(package, data))];
    KeysAt(r);
    r
  }

  /** Assigning keeps the keys unique. */
  lemma AssignKeepsUnique(d: Findings, k: string, v: Finding)
    requires UniqueKeys(d)
    ensures UniqueKeys(Assign(d, k, v))
  {
    var r := Assign(d, k, v);
    KeysAt(d);
    KeysAt(r);
    if k !in Keys(d) {
      forall i | 0 <= i < |d|
        ensures r[i].0 != r[|d|].0
      {
        assert Keys(d)[i] == d[i].0;
      }
    }
  }

  /** The five heuristic findings have distinct keys. */
  lemma BaseUnique(h: Heuristics, package: string, data: Value)
    ensures UniqueKeys(BaseFindings(h, package, data))
  {
    var r := BaseFindings(h, package, data);
    KeysAt(r);
    assert forall i :: 0 <= i < |r| ==> r[i].0 == HeuristicOrder[i];
  }

  /** The "Snyk" finding the enrichment adds, if any. An empty result adds
      none; so does anything that raises inside the try block: the adapter
      itself, `.get` on a non-dict, or `len` of a value without a length. */
  function SnykFinding(o: Outcome): (r: Option<Finding>)
    ensures r.Some? <==>
            o.Returned? && o.value.Object? && o.value.fields != map[] &&
            Len(Get(o.value.fields, "vulnerabilities", List([]))).Some?
    ensures r.Some? ==> r.value.evidence == Get(o.value.fields, "vulnerabilities", List([]))
    ensures r.Some? ==> (r.value.flag <==> !Truthy(r.value.evidence))
  {
    match o
    case Raised => None
    case Returned(v) =>
      if !Truthy(v) then None
      else if !v.Object? then None
      else
        var vulns := Get(v.fields, "vulnerabilities", List([]));
        match Len(vulns)
        case None => None
        case Some(n) => Some(Finding(n == 0, vulns))
  }

  /** The "Socket" finding: any truthy enrichment, always passed. */
  function SocketFinding(o: Outcome): (r: Option<Finding>)
    ensures r.Some? <==> o.Returned? && Truthy(o.value)
    ensures r.Some? ==> r.value == Finding(true, o.value)
  {
    if o.Returned? && Truthy(o.value) then Some(Finding(true, o.value)) else None
  }

  /** `d`, extended by `f` under `k` when there is one. */
  function AssignOpt(d: Findings, k: string, f: Option<Finding>): Findings {
    if f.Some? then Assign(d, k, f.value) else d
  }

  /** The findings a full audit of `package` hands to the aggregator. */
  function AuditFindings(package: string, data: Value, env: Environment): Findings {
    var base := BaseFindings(env.heuristics, package, data);
    var withSnyk := AssignOpt(base, "Snyk", SnykFinding(env.snyk(package, data)));
    AssignOpt(withSnyk, "Socket", SocketFinding(env.socket(package, data)))
  }

  /** The keys come in the fixed heuristic order, then "Snyk" and "Socket"
      exactly when their enrichment yields a finding. */
  lemma AuditFindingsKeys(package: string, data: Value, env: Environment)
    ensures Keys(AuditFindings(package, data, env)) ==
            HeuristicOrder
            + (if SnykFinding(env.snyk(package, data)).Some? then ["Snyk"] else [])
            + (if SocketFinding(env.socket(package, data)).Some? then ["Socket"] else [])
  {
    var base := BaseFindings(env.heuristics, package, data);
    assert "Snyk" !in Keys(base);
    var withSnyk := AssignOpt(base, "Snyk", SnykFinding(env.snyk(package, data)));
    assert "Socket" !in Keys(withSnyk);
  }

  /** The enrichment findings of a full audit are exactly those the
      adapters' results yield, and the heuristics' findings are kept. */
  lemma AuditFindingsEnrichment(package: string, data: Value, env: Environment)
    ensures Lookup(AuditFindings(package, data, env), "Snyk") == SnykFinding(env.snyk(package, data))
    ensures Lookup(AuditFindings(package, data, env), "Socket") == SocketFinding(env.socket(package, data))
    ensures forall k :: k in HeuristicOrder ==>
              Lookup(AuditFindings(package, data, env), k) == Lookup(BaseFindings(env.heuristics, package, data), k)
  {
    var base := BaseFindings(env.heuristics, package, data);
    assert "Snyk" !in Keys(base) && "Socket" !in Keys(base);
    var withSnyk := AssignOpt(base, "Snyk", SnykFinding(env.snyk(package, data)));
    assert Lookup(withSnyk, "Socket") == None;
  }

  /** The findings of a full audit form a dict: no key occurs twice. */
  lemma AuditFindingsUnique(package: string, data: Value, env: Environment)
    ensures UniqueKeys(AuditFindings(package, data, env))
  {
    var base := BaseFindings(env.heuristics, package, data);
    BaseUnique(env.heuristics, package, data);
    var snyk := SnykFinding(env.snyk(package, data));
    if snyk.Some? {
      AssignKeepsUnique(base, "Snyk", snyk.value);
    }
    var withSnyk := AssignOpt(base, "Snyk", snyk);
    var socket := SocketFinding(env.socket(package, data));
    if socket.Some? {
      AssignKeepsUnique(withSnyk, "Socket", socket.value);
    }
  }

  /** Adapter failures add nothing: the findings are the heuristics' alone. */
  lemma AdapterFailuresAddNothing(package: string, data: Value, env: Environment)
    requires env.snyk(package, data) == Raised && env.socket(package, data) == Raised
    ensures AuditFindings(package, data, env) == BaseFindings(env.heuristics, package, data)
  {
  }
}
