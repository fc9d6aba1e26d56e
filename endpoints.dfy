/** The declarations of `JurisdictionEndpoint` and `PeopleEndpoint` and the
    result sets their `get_results` build, over an in-memory store. */
module Endpoints {
  import opened Wrappers
  import opened Strings
  import opened Sequences
  import opened Models
  import opened Parsing

  /** A declared request parameter: required, or optional with a default. */
  datatype ParamDefault = Required | DefaultsTo(value: Option<string>)
  datatype Parameter = Parameter(name: string, default: ParamDefault)

  const JurisdictionParameters: seq<Parameter> := [Parameter("classification", DefaultsTo(None))]
  const JurisdictionDefaultPerPage: nat := 52
  const JurisdictionMaxPerPage: nat := 100

  const PeopleParameters: seq<Parameter> := [
    Parameter("jurisdiction", Required),
    Parameter("chamber", DefaultsTo(None)),
    Parameter("name", DefaultsTo(None))]

  /** The declared parameters: `jurisdiction` is the one required parameter
      of the people listing, every other parameter defaults to `None`, and
      the jurisdiction listing's default page size is within its maximum. */
  lemma DeclaredParameters()
    ensures forall i :: 0 <= i < |JurisdictionParameters| ==> JurisdictionParameters[i].default == DefaultsTo(None)
    ensures forall i :: 0 <= i < |PeopleParameters| ==>
              (PeopleParameters[i].default == Required <==> PeopleParameters[i].name == "jurisdiction")
    ensures forall i :: 0 <= i < |PeopleParameters| && PeopleParameters[i].default != Required ==>
              PeopleParameters[i].default == DefaultsTo(None)
    ensures 0 < JurisdictionDefaultPerPage <= JurisdictionMaxPerPage
  {
    assert PeopleParameters[1].name != "jurisdiction";
    assert PeopleParameters[2].name != "jurisdiction";
  }

  /** Python truthiness of an optional string: present and non-empty. */
  predicate Truthy(s: Option<string>)
    ensures Truthy(s) <==> s != None && s != Some("")
  {
    s.Some? && s.value != ""
  }

  function ClassificationIs(c: string): Jurisdiction -> bool
  {
    (j: Jurisdiction) => j.classification == c
  }

  /** `JurisdictionEndpoint.get_results`: all jurisdictions ordered by name,
      narrowed to one classification when one is given. */
  function JurisdictionResults(store: seq<Jurisdiction>, classification: Option<string>, segments: set<string>): (r: seq<Jurisdiction>)
    ensures forall j :: j in r ==> j in store && (!Truthy(classification) || j.classification == classification.value)
  {
    var jset := SortBy(store, JurisdictionName);
    assert forall j :: j in jset <==> j in multiset(jset);
    if Truthy(classification) then Filter(jset, ClassificationIs(classification.value)) else jset
  }

  /** The jurisdiction listing is sorted by name and holds each stored
      jurisdiction as often as the store does when no classification is
      given, and otherwise exactly the stored ones of that classification. */
  lemma JurisdictionResultsSpec(store: seq<Jurisdiction>, classification: Option<string>, segments: set<string>)
    ensures var r := JurisdictionResults(store, classification, segments);
            && SortedBy(r, JurisdictionName)
            && forall j :: multiset(r)[j] ==
                 if !Truthy(classification) || j.classification == classification.value
                 then multiset(store)[j] else 0
  {
    SortBySorted(store, JurisdictionName);
    if Truthy(classification) {
      FilterSorted(SortBy(store, JurisdictionName), ClassificationIs(classification.value), JurisdictionName);
    }
  }

  /** A membership in jurisdiction `jid` that has not ended by `today`: its
      end date is the empty sentinel or compares greater than `today`. */
  predicate ActiveMembership(m: Membership, jid: string, today: string)
    ensures ActiveMembership(m, jid, today) <==>
              m.jurisdictionId == jid && (m.endDate == "" || (Le(today, m.endDate) && m.endDate != today))
  {
    LtIsStrictLe(today, m.endDate);
    m.jurisdictionId == jid && (Lt(today, m.endDate) || m.endDate == "")
  }

  predicate HasActiveMembership(p: Person, jid: string, today: string)
  {
    exists m :: m in p.memberships && ActiveMembership(m, jid, today)
  }

  function ActiveIn(jid: string, today: string): Person -> bool
  {
    (p: Person) => HasActiveMembership(p, jid, today)
  }

  function NameContains(name: string): Person -> bool
  {
    (p: Person) => ContainsIgnoreCase(p.name, name)
  }

  /** `PeopleEndpoint.get_results`, with `today` the formatted current date.
      `chamber` is accepted and not used; `segments` only decides a prefetch
      whose result is discarded, so it does not affect the result either. */
  function PeopleResults(
    store: seq<Person>, lookup: Lookup, jurisdiction: string, chamber: Option<string>,
    name: Option<string>, segments: set<string>, today: string): (r: seq<Person>)
    ensures forall p :: p in r ==> p in store
  {
    var people := ActivePeople(store, ParseJurisdiction(jurisdiction, lookup), today);
    if Truthy(name) then Filter(people, NameContains(name.value)) else people
  }

  /** The people listed before the optional name filter. */
  function ActivePeople(store: seq<Person>, jid: string, today: string): (r: seq<Person>)
    ensures forall p :: p in r ==> p in store && HasActiveMembership(p, jid, today)
  {
    var d := Dedup(Filter(store, ActiveIn(jid, today)));
    assert forall p :: p in SortBy(d, PersonName) <==> p in multiset(SortBy(d, PersonName));
    SortBy(Dedup(Filter(store, ActiveIn(jid, today))), PersonName)
  }

  lemma ActivePeopleSpec(store: seq<Person>, jid: string, today: string)
    ensures SortedBy(ActivePeople(store, jid, today), PersonName)
    ensures forall p :: multiset(ActivePeople(store, jid, today))[p] <= 1
    ensures forall p :: p in ActivePeople(store, jid, today) <==> p in store && HasActiveMembership(p, jid, today)
  {
    var d := Dedup(Filter(store, ActiveIn(jid, today)));
    SortBySorted(d, PersonName);
    forall p ensures p in ActivePeople(store, jid, today) <==> p in d {
      assert p in ActivePeople(store, jid, today) <==> p in multiset(ActivePeople(store, jid, today));
    }
  }

  /** The people listing is sorted by name. */
  lemma PeopleResultsSorted(
    store: seq<Person>, lookup: Lookup, jurisdiction: string, chamber: Option<string>,
    name: Option<string>, segments: set<string>, today: string)
    ensures SortedBy(PeopleResults(store, lookup, jurisdiction, chamber, name, segments, today), PersonName)
  {
    var people := ActivePeople(store, ParseJurisdiction(jurisdiction, lookup), today);
    ActivePeopleSpec(store, ParseJurisdiction(jurisdiction, lookup), today);
    if Truthy(name) {
      FilterSorted(people, NameContains(name.value), PersonName);
    }
  }

  /** Nobody is listed twice. */
  lemma PeopleResultsDistinct(
    store: seq<Person>, lookup: Lookup, jurisdiction: string, chamber: Option<string>,
    name: Option<string>, segments: set<string>, today: string)
    ensures NoDuplicates(PeopleResults(store, lookup, jurisdiction, chamber, name, segments, today))
  {
    var people := ActivePeople(store, ParseJurisdiction(jurisdiction, lookup), today);
    var r := PeopleResults(store, lookup, jurisdiction, chamber, name, segments, today);
    ActivePeopleSpec(store, ParseJurisdiction(jurisdiction, lookup), today);
    assert forall p :: multiset(r)[p] <= multiset(people)[p];
    CountAtMostOneNoDuplicates(r);
  }

  /** A stored person is listed iff they have an active membership in the
      resolved jurisdiction and, when a non-empty name is given, their name
      contains it ignoring case. */
  lemma PeopleResultsMembers(
    store: seq<Person>, lookup: Lookup, jurisdiction: string, chamber: Option<string>,
    name: Option<string>, segments: set<string>, today: string)
    ensures forall p :: p in PeopleResults(store, lookup, jurisdiction, chamber, name, segments, today) <==>
              && p in store
              && HasActiveMembership(p, ParseJurisdiction(jurisdiction, lookup), today)
              && (Truthy(name) ==> ContainsIgnoreCase(p.name, name.value))
  {
    ActivePeopleSpec(store, ParseJurisdiction(jurisdiction, lookup), today);
  }

  /** The chamber and the requested segments never change the people listed. */
  lemma PeopleResultsIgnoreChamberAndSegments(
    store: seq<Person>, lookup: Lookup, jurisdiction: string, chamber: Option<string>, chamber': Option<string>,
    name: Option<string>, segments: set<string>, segments': set<string>, today: string)
    ensures PeopleResults(store, lookup, jurisdiction, chamber, name, segments, today)
         == PeopleResults(store, lookup, jurisdiction, chamber', name, segments', today)
  {
  }
}
