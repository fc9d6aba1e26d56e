/** The single segment of `JurisdictionResource`. */
module JurisdictionResource {
  import opened Wrappers
  import opened Json
  import opened Models

  /** The `basic` segment: the jurisdiction's four stored attributes. */
  function Basic(j: Jurisdiction): (r: Record)
    ensures r.Keys == {"id", "name", "url", "classification"}
    ensures JurisdictionFromBasic(r) == Some(j)
  {
    map["id" := Str(j.id), "name" := Str(j.name), "url" := Str(j.url), "classification" := Str(j.classification)]
  }

  /** Reads a jurisdiction back from its `basic` segment. */
  function JurisdictionFromBasic(m: Record): Option<Jurisdiction>
  {
    if && "id" in m && m["id"].Str?
       && "name" in m && m["name"].Str?
       && "url" in m && m["url"].Str?
       && "classification" in m && m["classification"].Str?
    then Some(Jurisdiction(m["id"].s, m["name"].s, m["url"].s, m["classification"].s))
    else None
  }
}
