/** Coercion of the raw `jurisdiction` and `chamber` request parameters. */
module Parsing {
  import opened Wrappers
  import opened Strings

  /** The jurisdiction lookup service: by two-letter abbreviation and by name,
      each answering a canonical jurisdiction id. */
  datatype Lookup = Lookup(byAbbr: string -> string, byName: string -> string)

  /** The prefix that marks an already canonical jurisdiction id. */
  const CanonicalPrefix: string := "ocd-jurisdiction"

  predicate IsCanonical(jid: string)
  {
    StartsWith(jid, CanonicalPrefix)
  }

  /** `parse_jurisdiction_param`: two characters are an abbreviation, a
      canonical id passes through, anything else is a name. */
  function ParseJurisdiction(jid: string, lookup: Lookup): (r: string)
    ensures |jid| == 2 ==> r == lookup.byAbbr(jid)
    ensures IsCanonical(jid) ==> r == jid
    ensures |jid| != 2 && !IsCanonical(jid) ==> r == lookup.byName(jid)
  {
    assert IsCanonical(jid) ==> |jid| >= |CanonicalPrefix|;
    if |jid| == 2 then lookup.byAbbr(jid)
    else if IsCanonical(jid) then jid
    else lookup.byName(jid)
  }

  /** `parse_chamber_param` hands the chamber on unchanged. */
  function ParseChamber(chamber: Option<string>): (r: Option<string>)
    ensures r == chamber
  {
    chamber
  }

  /** When the lookup service answers canonical ids, parsing is idempotent:
      a parsed id parses to itself. */
  lemma ParseIdempotent(jid: string, lookup: Lookup)
    requires forall a :: IsCanonical(lookup.byAbbr(a))
    requires forall n :: IsCanonical(lookup.byName(n))
    ensures IsCanonical(ParseJurisdiction(jid, lookup))
    ensures ParseJurisdiction(ParseJurisdiction(jid, lookup), lookup) == ParseJurisdiction(jid, lookup)
  {
  }

  /** An abbreviation, a name and the canonical id they stand for all parse to
      that id. */
  lemma ThreeFormsAgree(abbr: string, name: string, id: string, lookup: Lookup)
    requires |abbr| == 2 && lookup.byAbbr(abbr) == id
    requires |name| != 2 && !IsCanonical(name) && lookup.byName(name) == id
    requires IsCanonical(id)
    ensures ParseJurisdiction(abbr, lookup) == ParseJurisdiction(name, lookup) == ParseJurisdiction(id, lookup) == id
  {
  }
}
