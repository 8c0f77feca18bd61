/** `check_velocity` of src/skopos/checker.py: a release-count wrapper
    around the resurrection heuristic (a parameter here). */
module Velocity {
  import opened Values
  import opened Forensics

  /** At this many version keys a project is flagged outright. */
  const RapidReleases: nat := 20

  /** The meta dict the wrapper starts from: a copy of a dict meta, or a
      non-dict meta wrapped as `{"info": meta}`. */
  function MetaDict(meta: Value): map<string, Value> {
    if meta.Object? then meta.fields else map["info" := meta]
  }

  /** `check_velocity(pypi_data)`; None where `len(releases)` raises. */
  function CheckVelocity(data: map<string, Value>, resurrection: Value -> Finding): (r: Option<Finding>)
    ensures r.None? <==> Len(Get(data, "releases", Empty)).None?
    ensures r.Some? ==> r.value.evidence.Object?
    ensures r.Some? ==> var n := Len(Get(data, "releases", Empty)).value;
      && "releases" in r.value.evidence.fields
      && r.value.evidence.fields["releases"] == Int(n)
      && (n >= RapidReleases ==> r.value == Finding(false, Object(map["releases" := Int(n)])))
      && (n < RapidReleases ==>
            && r.value.flag == resurrection(Object(data)).flag
            && r.value.evidence.fields.Keys == MetaDict(resurrection(Object(data)).evidence).Keys + {"releases"}
            && forall k :: k in MetaDict(resurrection(Object(data)).evidence) && k != "releases" ==>
                 r.value.evidence.fields[k] == MetaDict(resurrection(Object(data)).evidence)[k])
  {
    match Len(Get(data, "releases", Empty))
    case None => None
    case Some(n) =>
      if n >= RapidReleases then Some(Finding(false, Object(map["releases" := Int(n)])))
      else
        var f := resurrection(Object(data));
        Some(Finding(f.flag, Object(MetaDict(f.evidence)["releases" := Int(n)])))
  }

  /** At 20 or more releases the verdict depends on the release count only. */
  lemma RapidReleasesOnlyCount(a: map<string, Value>, b: map<string, Value>, ra: Value -> Finding, rb: Value -> Finding)
    requires Len(Get(a, "releases", Empty)) == Len(Get(b, "releases", Empty))
    requires Len(Get(a, "releases", Empty)).Some? && Len(Get(a, "releases", Empty)).value >= RapidReleases
    ensures CheckVelocity(a, ra) == CheckVelocity(b, rb)
    ensures CheckVelocity(a, ra).value.flag == false
  {
  }

  /** Below 20 releases the status is the resurrection check's. */
  lemma FewReleasesDelegate(data: map<string, Value>, resurrection: Value -> Finding)
    requires Len(Get(data, "releases", Empty)).Some? && Len(Get(data, "releases", Empty)).value < RapidReleases
    ensures CheckVelocity(data, resurrection).value.flag == resurrection(Object(data)).flag
  {
  }
}
