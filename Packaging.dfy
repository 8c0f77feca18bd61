/** `main` of scripts/ci_packaging_check.py: the release gate on the
    member names of the built source archive. Globbing dist/ and reading
    the archive are inputs: `dist` lists the archives found, each as the
    member names the archive reports. */
module Packaging {
  import opened Text

  const Readme: string := "README.md"
  const License: string := "LICENSE"
  const DemoScript: string := "scripts/demo_offline_snyk.sh"
  const OfflineSample: string := "etc/snyk_offline_sample.json"

  /** `any(pat in n for n in names)`. */
  function AnyContains(names: seq<string>, pat: string): (r: bool)
    ensures r <==> exists i :: 0 <= i < |names| && Contains(names[i], pat)
  {
    if names == [] then false
    else if Contains(names[0], pat) then true
    else
      assert forall i :: 1 <= i < |names| ==> names[i] == names[1..][i - 1];
      AnyContains(names[1..], pat)
  }

  /** What the archive must satisfy: README and LICENSE present, the demo
      script and the offline sample absent, each by substring. */
  predicate Acceptable(names: seq<string>) {
    && (exists i :: 0 <= i < |names| && Contains(names[i], Readme))
    && (exists i :: 0 <= i < |names| && Contains(names[i], License))
    && (forall i :: 0 <= i < |names| ==> !Contains(names[i], DemoScript))
    && (forall i :: 0 <= i < |names| ==> !Contains(names[i], OfflineSample))
  }

  /** The exit code. */
  function PackagingCheck(dist: seq<seq<string>>): (code: int)
    ensures code in {0, 2, 3, 4, 5, 6}
    ensures code == 2 <==> dist == []
    ensures code == 0 <==> dist != [] && Acceptable(dist[0])
    ensures code == 3 <==> dist != [] && !AnyContains(dist[0], Readme)
    ensures code == 4 <==> dist != [] && AnyContains(dist[0], Readme) && !AnyContains(dist[0], License)
    ensures code == 5 <==>
              dist != [] && AnyContains(dist[0], Readme) && AnyContains(dist[0], License)
              && AnyContains(dist[0], DemoScript)
    ensures code == 6 <==>
              dist != [] && AnyContains(dist[0], Readme) && AnyContains(dist[0], License)
              && !AnyContains(dist[0], DemoScript) && AnyContains(dist[0], OfflineSample)
  {
    if dist == [] then 2
    else
      var names := dist[0];
      if !AnyContains(names, Readme) then 3
      else if !AnyContains(names, License) then 4
      else if AnyContains(names, DemoScript) then 5
      else if AnyContains(names, OfflineSample) then 6
      else 0
  }

  /** Only the first archive is inspected. */
  lemma OnlyFirstArchive(names: seq<string>, more1: seq<seq<string>>, more2: seq<seq<string>>)
    ensures PackagingCheck([names] + more1) == PackagingCheck([names] + more2)
  {
    assert ([names] + more1)[0] == names == ([names] + more2)[0];
  }

  /** Extra members can only turn a pass into a leak failure, never into
      a missing-file failure. */
  lemma {:induction false} MoreMembersNoMissing(names: seq<string>, extra: seq<string>)
    requires PackagingCheck([names]) == 0
    ensures PackagingCheck([names + extra]) in {0, 5, 6}
  {
    var all := names + extra;
    var i :| 0 <= i < |names| && Contains(names[i], Readme);
    assert all[i] == names[i];
    var j :| 0 <= j < |names| && Contains(names[j], License);
    assert all[j] == names[j];
  }

  /** Containment is by substring: a member named "pkg/LICENSE.txt"
      satisfies the LICENSE check. */
  lemma LicenseBySubstring(names: seq<string>, n: string)
    requires n == "pkg/LICENSE.txt" && n in names
    ensures AnyContains(names, License)
  {
    assert n[4..11] == License;
    assert MatchAt(n, License, 4);
    ContainsIff(n, License);
    var i :| 0 <= i < |names| && names[i] == n;
  }
}
