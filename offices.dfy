/** The `offices` segment of `PersonResource`: contact details grouped by
    note, later values of a type overwriting earlier ones, each group merged
    over a default entry. */
module Offices {
  import opened Json
  import opened Models
  import opened Sequences

  /** The contact types every office entry carries, `None` unless seen. */
  const StandardKinds: set<string> := {"fax", "voice", "email", "address"}

  /** The notes that occur among `cds`. */
  function NotesOf(cds: seq<ContactDetail>): set<string>
  {
    set k | 0 <= k < |cds| :: cds[k].note
  }

  /** The types that occur among the contact details with note `note`. */
  function KindsOf(cds: seq<ContactDetail>, note: string): set<string>
  {
    set k | 0 <= k < |cds| && cds[k].note == note :: cds[k].kind
  }

  /** The distinct notes of `cds` in the order a dictionary keyed by note
      first receives them. */
  function NotesInOrder(cds: seq<ContactDetail>): seq<string>
  {
    if cds == [] then []
    else
      var ns := NotesInOrder(cds[..|cds| - 1]);
      var note := cds[|cds| - 1].note;
      if note in ns then ns else ns + [note]
  }

  /** The type-to-value dictionary gathered for `note`: each contact detail
      with that note stores its value under its type, replacing any earlier
      value of the same type. */
  function Details(cds: seq<ContactDetail>, note: string): map<string, string>
  {
    if cds == [] then map[]
    else
      var d := Details(cds[..|cds| - 1], note);
      var cd := cds[|cds| - 1];
      if cd.note == note then d[cd.kind := cd.value] else d
  }

  /** `{"name": note, "fax": None, "voice": None, "email": None,
      "address": None, **details}`: the gathered details override the
      defaults, and are added when they are of another type. */
  function Entry(note: string, details: map<string, string>): Record
  {
    map["name" := Str(note), "fax" := Null, "voice" := Null, "email" := Null, "address" := Null]
      + map t | t in details :: Str(details[t])
  }

  /** The office entries, one per distinct note, in first-seen order. */
  function OfficeEntries(cds: seq<ContactDetail>): seq<Record>
  {
    var ns := NotesInOrder(cds);
    seq(|ns|, i requires 0 <= i < |ns| => Entry(ns[i], Details(cds, ns[i])))
  }

  /** The `offices` segment as the source returns it: the single key
      "offices", holding the office entries in order (their properties are
      the lemmas below). */
  function OfficesSegment(cds: seq<ContactDetail>): (r: Record)
    ensures r.Keys == {"offices"} && r["offices"].Arr?
    ensures |r["offices"].items| == |NotesInOrder(cds)|
    ensures forall i :: 0 <= i < |NotesInOrder(cds)| ==> r["offices"].items[i] == Obj(OfficeEntries(cds)[i])
  {
    var es := OfficeEntries(cds);
    map["offices" := Arr(seq(|es|, i requires 0 <= i < |es| => Obj(es[i])))]
  }

  /** The contact detail at `k` is the last one with its note and type. */
  ghost predicate IsLastWrite(cds: seq<ContactDetail>, k: int)
  {
    && 0 <= k < |cds|
    && forall k' :: k < k' < |cds| ==> cds[k'].note != cds[k].note || cds[k'].kind != cds[k].kind
  }

  lemma NotesOfSnoc(cds: seq<ContactDetail>)
    requires cds != []
    ensures NotesOf(cds) == NotesOf(cds[..|cds| - 1]) + {cds[|cds| - 1].note}
  {
    var pre := cds[..|cds| - 1];
    forall n | n in NotesOf(pre) ensures n in NotesOf(cds) {
      var k :| 0 <= k < |pre| && pre[k].note == n;
      assert cds[k].note == n;
    }
  }

  /** The notes in order are exactly the notes present. */
  lemma {:induction false} NotesInOrderMembers(cds: seq<ContactDetail>)
    ensures forall n :: n in NotesInOrder(cds) <==> n in NotesOf(cds)
  {
    if cds != [] {
      NotesInOrderMembers(cds[..|cds| - 1]);
      NotesOfSnoc(cds);
    }
  }

  /** First-seen order: the notes of any prefix of the contact details are
      the leading notes of the whole, in the same order, so a note first seen
      earlier comes before every note first seen later. */
  lemma {:induction false} NotesInOrderFirstSeen(cds: seq<ContactDetail>, k: int)
    requires 0 <= k <= |cds|
    ensures NotesInOrder(cds[..k]) <= NotesInOrder(cds)
  {
    if k < |cds| {
      var pre := cds[..|cds| - 1];
      assert pre[..k] == cds[..k];
      NotesInOrderFirstSeen(pre, k);
    } else {
      assert cds[..k] == cds;
    }
  }

  /** No note appears twice among the notes in order. */
  lemma {:induction false} NotesInOrderDistinct(cds: seq<ContactDetail>)
    ensures NoDuplicates(NotesInOrder(cds))
  {
    if cds != [] {
      NotesInOrderDistinct(cds[..|cds| - 1]);
    }
  }

  /** A sequence without repeated elements has as many distinct elements as
      its length. */
  lemma {:induction false} DistinctCount(ns: seq<string>)
    requires NoDuplicates(ns)
    ensures |set n | n in ns| == |ns|
  {
    if ns != [] {
      var tail := ns[1..];
      assert NoDuplicates(tail);
      DistinctCount(tail);
      assert (set n | n in ns) == (set n | n in tail) + {ns[0]};
      assert ns[0] !in (set n | n in tail);
    }
  }

  /** A note that does not occur has gathered nothing. */
  lemma {:induction false} DetailsAbsent(cds: seq<ContactDetail>, note: string)
    requires note !in NotesOf(cds)
    ensures Details(cds, note) == map[]
  {
    if cds != [] {
      NotesOfSnoc(cds);
      DetailsAbsent(cds[..|cds| - 1], note);
    }
  }

  /** The gathered types are exactly the types seen with that note. */
  lemma {:induction false} DetailsKeys(cds: seq<ContactDetail>, note: string)
    ensures Details(cds, note).Keys == KindsOf(cds, note)
  {
    if cds != [] {
      var pre := cds[..|cds| - 1];
      DetailsKeys(pre, note);
      var cd := cds[|cds| - 1];
      forall t | t in KindsOf(pre, note) ensures t in KindsOf(cds, note) {
        var k :| 0 <= k < |pre| && pre[k].note == note && pre[k].kind == t;
        assert cds[k] == pre[k];
      }
      forall t | t in KindsOf(cds, note) ensures t in KindsOf(pre, note) || (cd.note == note && t == cd.kind) {
        var k :| 0 <= k < |cds| && cds[k].note == note && cds[k].kind == t;
        if k < |pre| {
          assert pre[k] == cds[k];
        }
      }
      if cd.note == note {
        assert cd.kind in KindsOf(cds, note) by {
          assert cds[|cds| - 1] == cd;
        }
      }
    }
  }

  /** Last write wins: the value gathered for a note and type is that of the
      last contact detail with that note and type. */
  lemma {:induction false} LastWriteWins(cds: seq<ContactDetail>, k: int)
    requires IsLastWrite(cds, k)
    ensures cds[k].kind in Details(cds, cds[k].note)
    ensures Details(cds, cds[k].note)[cds[k].kind] == cds[k].value
  {
    var pre := cds[..|cds| - 1];
    if k < |cds| - 1 {
      assert pre[k] == cds[k];
      assert IsLastWrite(pre, k) by {
        forall k' | k < k' < |pre| ensures pre[k'].note != pre[k].note || pre[k'].kind != pre[k].kind {
          assert pre[k'] == cds[k'];
        }
      }
      LastWriteWins(pre, k);
    }
  }

  /** Entry `i` of the offices segment describes the `i`-th distinct note: it
      always holds "name" and the four standard types, a standard type is
      `None` exactly when no contact detail of that note had it, every type
      seen is present with the value of the last such contact detail, nothing
      else appears, and "name" is the note unless a detail of type "name"
      overrode it. */
  lemma OfficeEntryFields(cds: seq<ContactDetail>, i: int)
    requires 0 <= i < |NotesInOrder(cds)|
    ensures |OfficeEntries(cds)| == |NotesInOrder(cds)|
    ensures var n := NotesInOrder(cds)[i];
            var e := OfficeEntries(cds)[i];
            && e.Keys == {"name"} + StandardKinds + KindsOf(cds, n)
            && (forall t :: t in StandardKinds ==> (e[t] == Null <==> t !in KindsOf(cds, n)))
            && (forall k :: IsLastWrite(cds, k) && cds[k].note == n ==> e[cds[k].kind] == Str(cds[k].value))
            && ("name" !in KindsOf(cds, n) ==> e["name"] == Str(n))
  {
    var n := NotesInOrder(cds)[i];
    var e := OfficeEntries(cds)[i];
    DetailsKeys(cds, n);
    forall k | IsLastWrite(cds, k) && cds[k].note == n ensures e[cds[k].kind] == Str(cds[k].value) {
      LastWriteWins(cds, k);
    }
  }

  /** One entry per distinct note. */
  lemma OneEntryPerNote(cds: seq<ContactDetail>)
    ensures |OfficeEntries(cds)| == |NotesOf(cds)|
  {
    var ns := NotesInOrder(cds);
    NotesInOrderMembers(cds);
    NotesInOrderDistinct(cds);
    DistinctCount(ns);
    assert (set n | n in ns) == NotesOf(cds);
  }

  /** `offices` maps each note seen in `cds` to the details gathered for it. */
  ghost predicate Gathered(cds: seq<ContactDetail>, offices: map<string, map<string, string>>)
  {
    && offices.Keys == NotesOf(cds)
    && forall n :: n in offices ==> offices[n] == Details(cds, n)
  }

  /** One step of the gathering loop: `offices[cd.note][cd.kind] = cd.value`
      on a `defaultdict(dict)`, together with the order notes first appear. */
  lemma GatherStep(cds: seq<ContactDetail>, i: int, offices: map<string, map<string, string>>)
    requires 0 <= i < |cds| && Gathered(cds[..i], offices)
    ensures var cd := cds[i];
            var o := if cd.note in offices then offices else offices[cd.note := map[]];
            Gathered(cds[..i + 1], o[cd.note := o[cd.note][cd.kind := cd.value]])
    ensures NotesInOrder(cds[..i + 1]) ==
              if cds[i].note in NotesInOrder(cds[..i]) then NotesInOrder(cds[..i])
              else NotesInOrder(cds[..i]) + [cds[i].note]
  {
    var cd := cds[i];
    assert cds[..i + 1][..i] == cds[..i];
    NotesOfSnoc(cds[..i + 1]);
    if cd.note !in offices {
      DetailsAbsent(cds[..i], cd.note);
    }
  }

  /** `offices`: gathers the contact details into a dictionary of dictionaries
      keyed by note, remembering the order notes first appear, then emits one
      merged entry per note. */
  method Offices(p: Person) returns (segment: Record)
    ensures segment == OfficesSegment(p.contactDetails)
  {
    var cds := p.contactDetails;
    var offices: map<string, map<string, string>> := map[];
    var order: seq<string> := [];
    for i := 0 to |cds|
      invariant order == NotesInOrder(cds[..i])
      invariant Gathered(cds[..i], offices)
    {
      var cd := cds[i];
      NotesInOrderMembers(cds[..i]);
      GatherStep(cds, i, offices);
      if cd.note !in offices {
        order := order + [cd.note];
        offices := offices[cd.note := map[]];
      }
      offices := offices[cd.note := offices[cd.note][cd.kind := cd.value]];
    }
    assert cds[..|cds|] == cds;
    NotesInOrderMembers(cds);
    var entries: seq<Value> := [];
    for j := 0 to |order|
      invariant |entries| == j
      invariant forall k :: 0 <= k < j ==> entries[k] == Obj(Entry(order[k], offices[order[k]]))
    {
      var office := order[j];
      entries := entries + [Obj(Entry(office, offices[office]))];
    }
    ghost var es := OfficeEntries(cds);
    assert entries == seq(|es|, i requires 0 <= i < |es| => Obj(es[i]));
    segment := map["offices" := Arr(entries)];
  }
}
