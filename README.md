# simpleapi endpoints, modelled in Dafny

This project models the domain wiring of the Open States "simpleapi"
service, `api/endpoints.py`:

- the coercion of the `jurisdiction` request parameter (a two-letter
  abbreviation, a canonical `ocd-jurisdiction…` id, or a name) and of
  `chamber`;
- the segments of `PersonResource` (`basic`, `extra_bio`,
  `other_identifiers`, `other_names`, `links`, `sources`, `offices`) and of
  `JurisdictionResource` (`basic`), each a dictionary with a fixed key set;
- the `offices` segment, which groups contact details by note in a
  dictionary of dictionaries (later values of a type win) and emits one
  entry per note, in first-seen order, over a default entry;
- the result sets of `JurisdictionEndpoint.get_results` and
  `PeopleEndpoint.get_results`, as filters, de-duplication and sorting over a
  sequence of stored records, the two endpoints' declared parameters, and
  the page sizes `JurisdictionEndpoint` declares.

Files: `wrappers.dfy` (Option), `json.dfy` (the values segments return),
`strings.dfy` (code-point order, prefixes, case-insensitive substring
search), `sequences.dfy` (filter, stable sort by key, distinct), `models.dfy`
(the stored records), `parsing.dfy`, `person_resource.dfy`, `offices.dfy`,
`jurisdiction_resource.dfy`, `endpoints.dfy`.

The lookup service is a parameter: a `Lookup` value holding the two
functions "abbreviation to id" and "name to id". The current date is the
`today` parameter, already formatted as text. The store is a sequence of
`Person` or `Jurisdiction` values.

`offices` is modelled in the source's imperative form, as the method
`Offices.Offices` with its two loops over a map and an insertion-order
sequence; it is proved equal to the specification `Offices.OfficesSegment`,
about which the lemmas are stated. Everything else in the file is
expressions and comprehensions and is modelled as functions.

Behaviour of the source that the model keeps as written:

- The office entry is `{"name": note, "fax": None, …, **details}`, so a
  contact detail whose type is `"name"` replaces the note in the entry's
  `"name"` key; `Offices.OfficeEntryFields` states the name only for notes
  without such a detail.
- `other_names` renders `on.scheme` under the key `"name"`; the other name's
  own text never reaches the output (`PersonResource.OtherNamesIgnoreName`).
  Whether the stored other-name records carry a `scheme` attribute depends on
  the data models, which are not part of this model.
- `chamber` is declared as a parameter of `PeopleEndpoint`
  (api/endpoints.py:125) and accepted by its `get_results`
  (api/endpoints.py:130), but never read: the people listed do not depend on
  it.
- The prefetch at api/endpoints.py:141-142 tests for a segment named
  `contact_details`, while the segment is called `offices`; the prefetched
  query set is discarded anyway, so the result is the same either way.

## Model

| member | source | states |
|---|---|---|
| Parsing.ParseJurisdiction | api/endpoints.py:9-15 | a length-2 id yields the abbreviation lookup; every id starting with `ocd-jurisdiction` is returned unchanged (it is never taken for an abbreviation); any other string yields the name lookup |
| Parsing.ParseIdempotent | api/endpoints.py:9-15 | when the lookup answers canonical ids, the parsed id is canonical and parsing it again gives it back |
| Parsing.ThreeFormsAgree | api/endpoints.py:9-15 | an abbreviation and a name that the lookup maps to a canonical id parse to that id, as does the id itself |
| Parsing.ParseChamber | api/endpoints.py:18-19 | the chamber is handed on unchanged |
| PersonResource.Party | api/endpoints.py:32 | `primary_party or None`: None iff the party is missing or empty, otherwise the party |
| PersonResource.Basic | api/endpoints.py:27-34 | exactly the keys id, name, jurisdiction, party, current_role with the person's values; party is None iff the primary party is missing or empty, else that party |
| PersonResource.ExtraBio | api/endpoints.py:37-48 | exactly the nine biography keys, each holding the person's attribute of that name |
| PersonResource.RenderListRoundTrip | api/endpoints.py:53-56 | a list rendered element by element reads back as the original list when every element does |
| PersonResource.OtherIdentifiers | api/endpoints.py:51-57 | the single key other_identifiers, holding one dictionary with exactly the keys scheme and identifier per identifier, in order, from which the identifiers read back |
| PersonResource.OtherNames | api/endpoints.py:60-63 | the single key other_names, one {"name": scheme} per other name, in order |
| PersonResource.OtherNamesIgnoreName | api/endpoints.py:62 | two persons whose other names agree on their schemes render the same other_names segment |
| PersonResource.Links | api/endpoints.py:66-67 | the single key links, holding one dictionary with exactly the keys url and note per link, in order, from which the links read back |
| PersonResource.Sources | api/endpoints.py:70-73 | the single key sources, holding one dictionary with exactly the keys url and note per source, in order, from which the sources read back |
| Offices.Offices | api/endpoints.py:76-92 | the two loops build the map of notes to gathered details and the notes' insertion order, and return exactly `Offices.OfficesSegment` of the contact details |
| Offices.OfficesSegment | api/endpoints.py:76-92 | the reference definition: the single key offices, holding one entry per note of `Offices.NotesInOrder`, entry i being `Offices.OfficeEntries` at i; its properties are the lemmas below |
| Offices.GatherStep | api/endpoints.py:79-80 | one assignment `offices[cd.note][cd.kind] = cd.value` on a defaultdict keeps the map equal to the details gathered so far and appends a note only when first seen |
| Offices.NotesInOrderMembers | api/endpoints.py:78-81 | the notes emitted are exactly the notes present among the contact details |
| Offices.NotesInOrderFirstSeen | api/endpoints.py:78-81 | the notes of any prefix of the contact details are the leading notes emitted, in the same order (first-seen order) |
| Offices.NotesInOrderDistinct | api/endpoints.py:78-81 | no note is emitted twice |
| Offices.OneEntryPerNote | api/endpoints.py:81-91 | there are as many office entries as distinct notes |
| Offices.DetailsAbsent | api/endpoints.py:78-80 | a note that does not occur has no details gathered |
| Offices.DetailsKeys | api/endpoints.py:79-80 | the types gathered for a note are exactly the types of the contact details with that note |
| Offices.LastWriteWins | api/endpoints.py:79-80 | the value gathered for a note and type is that of the last contact detail with that note and type |
| Offices.OfficeEntryFields | api/endpoints.py:83-90 | each entry has exactly the keys name, fax, voice, email, address and the types seen for its note; a standard type is None iff unseen; each seen type holds its last value; name is the note unless a detail of type name overrides it |
| JurisdictionResource.Basic | api/endpoints.py:100-106 | exactly the keys id, name, url, classification, from which the jurisdiction reads back |
| Sequences.Filter | api/endpoints.py:117-118 | the filtered records are exactly those kept, each as often as in the input |
| Sequences.SortBy | api/endpoints.py:116 | ordering by a key permutes the records |
| Sequences.SortBySorted | api/endpoints.py:116 | ordering by a key yields a sequence sorted by that key |
| Sequences.FilterSorted | api/endpoints.py:116-118 | filtering a name-ordered sequence keeps it ordered |
| Sequences.Dedup | api/endpoints.py:136 | distinct keeps every record present and each at most once |
| Sequences.CountAtMostOneNoDuplicates | api/endpoints.py:136 | a sequence in which every record counts at most once has no repeated record |
| Strings.LtIsStrictLe | api/endpoints.py:135 | the end-date comparison `end_date > today` is string order without equality |
| Strings.ContainsIgnoreCase | api/endpoints.py:139 | `name__icontains`: holds iff the lower-cased needle occurs at some offset of the lower-cased name |
| Strings.ContainsIff | api/endpoints.py:139 | the substring search succeeds iff the needle occurs at some offset |
| Strings.ContainsIgnoreCaseProperties | api/endpoints.py:139 | an exact occurrence is a case-insensitive one, and the needle's case does not matter |
| Endpoints.DeclaredParameters | api/endpoints.py:110-127 | the declared parameters and page sizes: `jurisdiction` is the only required people parameter, every other parameter defaults to None, and the default page size 52 is within the maximum 100 |
| Endpoints.Truthy | api/endpoints.py:117 | Python truthiness of an optional parameter (`if classification:` here, `if name:` at line 138): present and non-empty |
| Endpoints.JurisdictionResults | api/endpoints.py:115-119 | the model of `JurisdictionEndpoint.get_results`: every jurisdiction listed is stored and, when a classification is given, has it; `Endpoints.JurisdictionResultsSpec` states order and multiplicities |
| Endpoints.JurisdictionResultsSpec | api/endpoints.py:115-119 | sorted by name; without a (truthy) classification every stored jurisdiction as often as stored, otherwise exactly those of that classification |
| Endpoints.ActiveMembership | api/endpoints.py:134-135 | a membership counts iff its organization's jurisdiction is the resolved id and its end date is "" or strictly greater than today in string order |
| Endpoints.ActivePeople | api/endpoints.py:131-136 | the filtered, distinct, name-ordered people before the name filter: each is stored with an active membership; `Endpoints.ActivePeopleSpec` states the rest |
| Endpoints.PeopleResults | api/endpoints.py:130-144 | the model of `PeopleEndpoint.get_results`: everyone listed is stored; `Endpoints.PeopleResultsSorted`, `Endpoints.PeopleResultsDistinct` and `Endpoints.PeopleResultsMembers` state order, distinctness and exactly who is listed |
| Endpoints.ActivePeopleSpec | api/endpoints.py:133-136 | before the name filter: sorted by name, each person at most once, and a person is present iff stored with a membership in the jurisdiction whose end date is empty or after today |
| Endpoints.PeopleResultsSorted | api/endpoints.py:130-144 | the people listed are sorted by name |
| Endpoints.PeopleResultsDistinct | api/endpoints.py:130-144 | nobody is listed twice |
| Endpoints.PeopleResultsMembers | api/endpoints.py:130-144 | a person is listed iff stored, with a membership in the parsed jurisdiction whose end date is empty or after today, and (when a non-empty name is given) whose name contains it ignoring case |
| Endpoints.PeopleResultsIgnoreChamberAndSegments | api/endpoints.py:130-144 | the chamber and the requested segments do not change the people listed |

## Left out

- The framework module `.framework` (`Resource`, `segment`, `Endpoint`, `Parameter`): the segment registry, merging of requested segments, parameter defaulting and validation, and pagination are not part of this model. Only the declared parameters of the two endpoints and the page sizes `JurisdictionEndpoint` declares (api/endpoints.py:110-113, 123-127) are recorded, as constants in `Endpoints`; `PeopleEndpoint` declares no page sizes of its own.
- Django query semantics: `.filter`, `.distinct`, `.order_by` and lazy query sets are modelled as sequence operations. Database collation is replaced by code-point string order, and among records with equal names the model keeps the store's order (a stable sort), where the database promises no order.
- The jurisdiction lookup service is a parameter; its failure to find a match is not modelled.
- `datetime.datetime.today()` and `strftime`: the formatted date is the parameter `today`.
- `people.prefetch_related("contact_details")`: a performance hint whose result is discarded; it has no effect on the result.
- Strings.ContainsIgnoreCase: folds ASCII letters only; the database's case folding of other letters is not modelled.
- Dictionary key order in rendered output: segments are Dafny maps, which have no order; the order of list elements and of office entries is modelled.
- Attribute types: dates and timestamps are stored text, `extras` and `current_role` are arbitrary JSON values (null, boolean, number as an exact real, string, list, dictionary; binary floating point is not modelled), and a person's current jurisdiction is represented by its name, so the failure when a person has no current jurisdiction is not modelled.
- HTTP transport, serialisation, and concurrency across requests.
