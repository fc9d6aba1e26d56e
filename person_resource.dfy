/** The segments of `PersonResource` except `offices` (see offices.dfy):
    each renders one person as a dictionary with a fixed key set. */
module PersonResource {
  import opened Wrappers
  import opened Json
  import opened Models

  /** `primary_party or None`: an empty or missing party renders as `None`. */
  function Party(primaryParty: Option<string>): (r: Value)
    ensures r == Null <==> primaryParty == None || primaryParty == Some("")
    ensures r != Null ==> r == Str(primaryParty.value)
  {
    if primaryParty.Some? && primaryParty.value != "" then Str(primaryParty.value) else Null
  }

  /** The `basic` segment. */
  function Basic(p: Person): (r: Record)
    ensures r.Keys == {"id", "name", "jurisdiction", "party", "current_role"}
    ensures r["id"] == Str(p.id) && r["name"] == Str(p.name)
    ensures r["jurisdiction"] == Str(p.currentJurisdictionName)
    ensures r["current_role"] == p.currentRole
    ensures r["party"] == Null <==> p.primaryParty == None || p.primaryParty == Some("")
    ensures r["party"] != Null ==> r["party"] == Str(p.primaryParty.value)
  {
    map[
      "id" := Str(p.id),
      "name" := Str(p.name),
      "jurisdiction" := Str(p.currentJurisdictionName),
      "party" := Party(p.primaryParty),
      "current_role" := p.currentRole]
  }

  /** The `extra_bio` segment. */
  function ExtraBio(p: Person): (r: Record)
    ensures r.Keys == {"family_name", "given_name", "image", "gender", "birth_date",
                       "death_date", "extras", "created_at", "updated_at"}
    ensures r["family_name"] == Str(p.familyName) && r["given_name"] == Str(p.givenName)
    ensures r["image"] == Str(p.image) && r["gender"] == Str(p.gender)
    ensures r["birth_date"] == Str(p.birthDate) && r["death_date"] == Str(p.deathDate)
    ensures r["extras"] == p.extras
    ensures r["created_at"] == Str(p.createdAt) && r["updated_at"] == Str(p.updatedAt)
  {
    map[
      "family_name" := Str(p.familyName),
      "given_name" := Str(p.givenName),
      "image" := Str(p.image),
      "gender" := Str(p.gender),
      "birth_date" := Str(p.birthDate),
      "death_date" := Str(p.deathDate),
      "extras" := p.extras,
      "created_at" := Str(p.createdAt),
      "updated_at" := Str(p.updatedAt)]
  }

  /** A list comprehension `[render(x) for x in xs]`, each element a dictionary. */
  function RenderList<T>(xs: seq<T>, render: T -> Record): (r: seq<Value>)
    ensures |r| == |xs|
    ensures forall i :: 0 <= i < |xs| ==> r[i] == Obj(render(xs[i]))
  {
    seq(|xs|, i requires 0 <= i < |xs| => Obj(render(xs[i])))
  }

  /** Reads a rendered list back, failing on anything that is not a list of
      dictionaries `decode` accepts. */
  function DecodeList<T>(v: Value, decode: Record -> Option<T>): Option<seq<T>>
  {
    if v.Arr? then DecodeItems(v.items, decode) else None
  }

  function DecodeItems<T>(vs: seq<Value>, decode: Record -> Option<T>): Option<seq<T>>
  {
    if vs == [] then Some([])
    else if !vs[0].Obj? then None
    else match (decode(vs[0].fields), DecodeItems(vs[1..], decode))
      case (Some(x), Some(rest)) => Some([x] + rest)
      case _ => None
  }

  /** A list rendered element by element reads back as the original list when
      each element does. */
  lemma {:induction false} RenderListRoundTrip<T>(xs: seq<T>, render: T -> Record, decode: Record -> Option<T>)
    requires forall i :: 0 <= i < |xs| ==> decode(render(xs[i])) == Some(xs[i])
    ensures DecodeItems(RenderList(xs, render), decode) == Some(xs)
  {
    if xs != [] {
      assert RenderList(xs, render)[1..] == RenderList(xs[1..], render);
      RenderListRoundTrip(xs[1..], render, decode);
      assert xs == [xs[0]] + xs[1..];
    }
  }

  function IdentifierRecord(oi: Identifier): Record
  {
    map["scheme" := Str(oi.scheme), "identifier" := Str(oi.identifier)]
  }

  function IdentifierFromRecord(m: Record): Option<Identifier>
  {
    if "scheme" in m && m["scheme"].Str? && "identifier" in m && m["identifier"].Str?
    then Some(Identifier(m["scheme"].s, m["identifier"].s))
    else None
  }

  function LinkRecord(l: Link): Record
  {
    map["url" := Str(l.url), "note" := Str(l.note)]
  }

  function LinkFromRecord(m: Record): Option<Link>
  {
    if "url" in m && m["url"].Str? && "note" in m && m["note"].Str?
    then Some(Link(m["url"].s, m["note"].s))
    else None
  }

  function OtherNameRecord(on: OtherName): Record
  {
    map["name" := Str(on.scheme)]
  }

  /** The `other_identifiers` segment: one `{scheme, identifier}` dictionary per
      identifier, in order, from which the identifiers can be read back. */
  function OtherIdentifiers(p: Person): (r: Record)
    ensures r.Keys == {"other_identifiers"} && r["other_identifiers"].Arr?
    ensures |r["other_identifiers"].items| == |p.identifiers|
    ensures forall i :: 0 <= i < |p.identifiers| ==>
              r["other_identifiers"].items[i] ==
                Obj(map["scheme" := Str(p.identifiers[i].scheme), "identifier" := Str(p.identifiers[i].identifier)])
    ensures DecodeList(r["other_identifiers"], IdentifierFromRecord) == Some(p.identifiers)
  {
    RenderListRoundTrip(p.identifiers, IdentifierRecord, IdentifierFromRecord);
    map["other_identifiers" := Arr(RenderList(p.identifiers, IdentifierRecord))]
  }

  /** The `other_names` segment: one `{"name": scheme}` dictionary per other
      name, in order. */
  function OtherNames(p: Person): (r: Record)
    ensures r.Keys == {"other_names"} && r["other_names"].Arr?
    ensures |r["other_names"].items| == |p.otherNames|
    ensures forall i :: 0 <= i < |p.otherNames| ==>
              r["other_names"].items[i] == Obj(map["name" := Str(p.otherNames[i].scheme)])
  {
    map["other_names" := Arr(RenderList(p.otherNames, OtherNameRecord))]
  }

  /** The `other_names` segment depends on the schemes alone: the text of the
      other names never reaches the output. */
  lemma OtherNamesIgnoreName(p: Person, q: Person)
    requires |p.otherNames| == |q.otherNames|
    requires forall i :: 0 <= i < |p.otherNames| ==> p.otherNames[i].scheme == q.otherNames[i].scheme
    ensures OtherNames(p) == OtherNames(q)
  {
    var rp, rq := RenderList(p.otherNames, OtherNameRecord), RenderList(q.otherNames, OtherNameRecord);
    forall i | 0 <= i < |rp| ensures rp[i] == rq[i] {
      assert OtherNameRecord(p.otherNames[i]) == OtherNameRecord(q.otherNames[i]);
    }
    assert rp == rq;
  }

  /** The `links` segment: one `{url, note}` dictionary per link, in order. */
  function Links(p: Person): (r: Record)
    ensures r.Keys == {"links"} && r["links"].Arr?
    ensures |r["links"].items| == |p.links|
    ensures forall i :: 0 <= i < |p.links| ==>
              r["links"].items[i] == Obj(map["url" := Str(p.links[i].url), "note" := Str(p.links[i].note)])
    ensures DecodeList(r["links"], LinkFromRecord) == Some(p.links)
  {
    RenderListRoundTrip(p.links, LinkRecord, LinkFromRecord);
    map["links" := Arr(RenderList(p.links, LinkRecord))]
  }

  /** The `sources` segment: one `{url, note}` dictionary per source, in order. */
  function Sources(p: Person): (r: Record)
    ensures r.Keys == {"sources"} && r["sources"].Arr?
    ensures |r["sources"].items| == |p.sources|
    ensures forall i :: 0 <= i < |p.sources| ==>
              r["sources"].items[i] == Obj(map["url" := Str(p.sources[i].url), "note" := Str(p.sources[i].note)])
    ensures DecodeList(r["sources"], LinkFromRecord) == Some(p.sources)
  {
    RenderListRoundTrip(p.sources, LinkRecord, LinkFromRecord);
    map["sources" := Arr(RenderList(p.sources, LinkRecord))]
  }
}
