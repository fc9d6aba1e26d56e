/** The stored records the endpoints read, reduced to the attributes that
    api/endpoints.py touches. */
module Models {
  import opened Wrappers
  import Json

  /** An entry of `person.identifiers`. */
  datatype Identifier = Identifier(scheme: string, identifier: string)

  /** An entry of `person.other_names`: the alternative name and the `scheme`
      attribute that the other_names segment reads. */
  datatype OtherName = OtherName(name: string, scheme: string)

  /** An entry of `person.links` or `person.sources`. */
  datatype Link = Link(url: string, note: string)

  /** An entry of `person.contact_details`; `kind` is the source's `type`. */
  datatype ContactDetail = ContactDetail(note: string, kind: string, value: string)

  /** A membership, with the id of its organization's jurisdiction and its end
      date as stored text ("" when the membership has not ended). */
  datatype Membership = Membership(jurisdictionId: string, endDate: string)

  datatype Person = Person(
    id: string,
    name: string,
    currentJurisdictionName: string,
    primaryParty: Option<string>,
    currentRole: Json.Value,
    familyName: string,
    givenName: string,
    image: string,
    gender: string,
    birthDate: string,
    deathDate: string,
    extras: Json.Value,
    createdAt: string,
    updatedAt: string,
    identifiers: seq<Identifier>,
    otherNames: seq<OtherName>,
    links: seq<Link>,
    sources: seq<Link>,
    contactDetails: seq<ContactDetail>,
    memberships: seq<Membership>)

  datatype Jurisdiction = Jurisdiction(id: string, name: string, url: string, classification: string)

  /** The sort keys of `.order_by("name")`. */
  function PersonName(p: Person): string { p.name }

  function JurisdictionName(j: Jurisdiction): string { j.name }
}
