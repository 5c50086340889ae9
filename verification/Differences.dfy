// Inventory differences and the registry that collects them
// (backend/app/comparison/diff.py, registry.py, result.py).

module Differences {
  import opened Common
  import opened OrderedDicts

  datatype DifferenceType = Missing | Unexpected | Modified | Conflict | Duplicate | Unsupported | Unknown

  datatype Value = Text(text: string) | Flag(flag: bool)

  datatype Difference = Difference(
    kind: DifferenceType, subjectType: string, subjectId: string, fieldName: Option<string>,
    expected: Option<Value>, observed: Option<Value>)
  {
    /** The stable key: kind:subject type:subject id:field. A missing field name and an
        empty one read the same. */
    function Key(): string {
      KindName(kind) + (":" + (subjectType + ":" + (subjectId + ":" + Field())))
    }

    function Field(): string {
      if fieldName.Some? then fieldName.value else ""
    }

    // What the key is meant to name.
    function Subject(): (DifferenceType, string, string, string) {
      (kind, subjectType, subjectId, Field())
    }
  }

  function KindName(kind: DifferenceType): string {
    match kind
    case Missing => "missing"
    case Unexpected => "unexpected"
    case Modified => "modified"
    case Conflict => "conflict"
    case Duplicate => "duplicate"
    case Unsupported => "unsupported"
    case Unknown => "unknown"
  }

  /** The name by which rules and keys speak of a kind. */
  lemma KindNamesAre(kind: DifferenceType)
    ensures KindName(kind) == "missing" <==> kind == DifferenceType.Missing
    ensures KindName(kind) == "unexpected" <==> kind == DifferenceType.Unexpected
    ensures KindName(kind) == "modified" <==> kind == DifferenceType.Modified
    ensures KindName(kind) == "conflict" <==> kind == DifferenceType.Conflict
    ensures KindName(kind) == "duplicate" <==> kind == DifferenceType.Duplicate
    ensures KindName(kind) == "unsupported" <==> kind == DifferenceType.Unsupported
    ensures KindName(kind) == "unknown" <==> kind == DifferenceType.Unknown
  {
    var name := KindName(kind);
    assert name[2] == 's' || name[2] == 'e' || name[2] == 'd' || name[2] == 'n' || name[2] == 'p' || name[2] == 'k';
  }

  // ------------------------------------------------------------- what keys tell

  /** Kind names differ in their third letter, so no key is shared across kinds. */
  lemma KindsApart(a: DifferenceType, b: DifferenceType, restA: string, restB: string)
    requires KindName(a) + restA == KindName(b) + restB
    ensures a == b
  {
    var textA, textB := KindName(a) + restA, KindName(b) + restB;
    assert textA[0] == KindName(a)[0] && textA[1] == KindName(a)[1] && textA[2] == KindName(a)[2];
    assert textB[0] == KindName(b)[0] && textB[1] == KindName(b)[1] && textB[2] == KindName(b)[2];
  }

  lemma SameKeySameKind(a: Difference, b: Difference)
    requires a.Key() == b.Key()
    ensures a.kind == b.kind
  {
    KindsApart(a.kind, b.kind, ":" + (a.subjectType + ":" + (a.subjectId + ":" + a.Field())),
      ":" + (b.subjectType + ":" + (b.subjectId + ":" + b.Field())));
  }

  lemma FirstColon(a: string, rest: string)
    requires ':' !in a
    ensures forall i | 0 <= i < |a| :: (a + ":" + rest)[i] != ':'
    ensures (a + ":" + rest)[|a|] == ':'
    ensures (a + ":" + rest)[..|a|] == a && (a + ":" + rest)[|a| + 1..] == rest
  {
  }

  lemma LastColon(a: string, end: string)
    requires ':' !in end
    ensures forall i | |a| < i < |a| + 1 + |end| :: (a + ":" + end)[i] != ':'
    ensures (a + ":" + end)[|a|] == ':'
    ensures (a + ":" + end)[..|a|] == a && (a + ":" + end)[|a| + 1..] == end
  {
  }

  /** Text before a first colon and after a last colon can be read back. */
  lemma SplitAtFirst(a: string, b: string, restA: string, restB: string)
    requires ':' !in a && ':' !in b && a + ":" + restA == b + ":" + restB
    ensures a == b && restA == restB
  {
    FirstColon(a, restA);
    FirstColon(b, restB);
  }

  lemma SplitAtLast(a: string, b: string, endA: string, endB: string)
    requires ':' !in endA && ':' !in endB && a + ":" + endA == b + ":" + endB
    ensures a == b && endA == endB
  {
    LastColon(a, endA);
    LastColon(b, endB);
  }

  /** Where subject types and fields hold no colon, a key names one subject. */
  lemma KeysNameSubjects(a: Difference, b: Difference)
    requires ':' !in a.subjectType && ':' !in b.subjectType && ':' !in a.Field() && ':' !in b.Field()
    ensures a.Key() == b.Key() <==> a.Subject() == b.Subject()
  {
    if a.Key() == b.Key() {
      SameKeySameKind(a, b);
      var restA := a.subjectId + ":" + a.Field();
      var restB := b.subjectId + ":" + b.Field();
      assert a.Key()[|KindName(a.kind)| + 1..] == a.subjectType + ":" + restA;
      assert b.Key()[|KindName(a.kind)| + 1..] == b.subjectType + ":" + restB;
      SplitAtFirst(a.subjectType, b.subjectType, restA, restB);
      SplitAtLast(a.subjectId, b.subjectId, a.Field(), b.Field());
    }
  }

  // ------------------------------------------------------------------ registry

  function KeyOf(d: Difference): string { d.Key() }

  class DifferenceRegistry {
    var differences: Dict<string, Difference>

    ghost predicate Valid() reads this { differences.Valid() }

    constructor ()
      ensures Valid() && differences == Empty()
    {
      differences := Empty();
    }

    method Add(d: Difference)
      requires Valid()
      modifies this
      ensures Valid() && differences == Put(old(differences), d.Key(), d)
    {
      differences := Put(differences, d.Key(), d);
    }

    method Extend(ds: seq<Difference>)
      requires Valid()
      modifies this
      ensures Valid() && differences == PutAll(old(differences), ds, KeyOf)
    {
      for i := 0 to |ds|
        invariant Valid() && differences == PutAll(old(differences), ds[..i], KeyOf)
      {
        assert ds[..i + 1] == ds[..i] + [ds[i]];
        PutAllSnoc(old(differences), ds[..i], ds[i], KeyOf);
        Add(ds[i]);
      }
      assert ds[..|ds|] == ds;
    }

    method All() returns (r: seq<Difference>)
      requires Valid()
      ensures r == Values(differences)
    {
      r := Values(differences);
    }

    method ByType(kind: DifferenceType) returns (r: seq<Difference>)
      requires Valid()
      ensures r == OfKind(Values(differences), kind)
    {
      r := OfKind(Values(differences), kind);
    }

    method Clear()
      modifies this
      ensures Valid() && differences == Empty()
    {
      differences := Empty();
    }
  }

  function OfKind(ds: seq<Difference>, kind: DifferenceType): seq<Difference> {
    if ds == [] then []
    else
      var last := ds[|ds| - 1];
      OfKind(ds[..|ds| - 1], kind) + if last.kind == kind then [last] else []
  }

  /** What a registry holds after everything was added. */
  function Registered(ds: seq<Difference>): seq<Difference> {
    Values(Build(ds, KeyOf))
  }

  lemma RegisteredAreAdded(ds: seq<Difference>, i: nat)
    requires i < |Registered(ds)|
    ensures Registered(ds)[i] in ds && Some(Registered(ds)[i]) == LastOf(ds, KeyOf, Registered(ds)[i].Key())
  {
    var built := Build(ds, KeyOf);
    BuildKeysFit(ds, KeyOf);
    LastValueWins(ds, KeyOf, built.keys[i]);
    LastOfIs(ds, KeyOf, built.keys[i]);
  }

  lemma AddedAreRegistered(ds: seq<Difference>, d: Difference)
    requires d in ds
    ensures exists i :: 0 <= i < |Registered(ds)| && Registered(ds)[i].Key() == d.Key()
  {
    var built := Build(ds, KeyOf);
    var n :| 0 <= n < |ds| && ds[n] == d;
    BuildKeysFit(ds, KeyOf);
    KeysAreSeen(ds, KeyOf, d.Key());
    assert KeyOf(ds[n]) == d.Key();
    assert d.Key() in built.keys;
    var i :| 0 <= i < |built.keys| && built.keys[i] == d.Key();
    assert Registered(ds)[i].Key() == d.Key();
  }

  /** Replacing equal keys hides no kind of difference: one is registered exactly when one
      was added. */
  lemma KindsSurvive(ds: seq<Difference>, kind: DifferenceType)
    ensures (exists d :: d in Registered(ds) && d.kind == kind) <==> (exists d :: d in ds && d.kind == kind)
  {
    if d :| d in ds && d.kind == kind {
      AddedAreRegistered(ds, d);
      var i :| 0 <= i < |Registered(ds)| && Registered(ds)[i].Key() == d.Key();
      SameKeySameKind(Registered(ds)[i], d);
      assert Registered(ds)[i] in Registered(ds);
    }
    if d :| d in Registered(ds) && d.kind == kind {
      var i :| 0 <= i < |Registered(ds)| && Registered(ds)[i] == d;
      RegisteredAreAdded(ds, i);
    }
  }

  // ------------------------------------------------------------------- metrics

  datatype Metrics = Metrics(
    total: nat, missing: nat, unexpected: nat, modified: nat, conflict: nat, duplicate: nat, unsupported: nat,
    unknown: nat)

  method CountKinds(ds: seq<Difference>) returns (r: Metrics)
    ensures r.total == |ds|
    ensures r.missing == |OfKind(ds, Missing)| && r.unexpected == |OfKind(ds, Unexpected)|
    ensures r.modified == |OfKind(ds, Modified)| && r.conflict == |OfKind(ds, Conflict)|
    ensures r.duplicate == |OfKind(ds, Duplicate)| && r.unsupported == |OfKind(ds, Unsupported)|
    ensures r.unknown == |OfKind(ds, Unknown)|
    ensures r.total == r.missing + r.unexpected + r.modified + r.conflict + r.duplicate + r.unsupported + r.unknown
  {
    var counts: map<DifferenceType, nat> := map[
      Missing := 0, Unexpected := 0, Modified := 0, Conflict := 0, Duplicate := 0, Unsupported := 0, Unknown := 0];
    forall kind: DifferenceType ensures kind in counts && counts[kind] == 0 {
      match kind {
        case Missing => case Unexpected => case Modified => case Conflict =>
        case Duplicate => case Unsupported => case Unknown =>
      }
    }
    for i := 0 to |ds|
      invariant forall kind: DifferenceType :: kind in counts && counts[kind] == |OfKind(ds[..i], kind)|
      invariant counts[Missing] + counts[Unexpected] + counts[Modified] + counts[Conflict] + counts[Duplicate]
        + counts[Unsupported] + counts[Unknown] == i
    {
      assert ds[..i + 1][..i] == ds[..i];
      counts := counts[ds[i].kind := counts[ds[i].kind] + 1];
    }
    assert ds[..|ds|] == ds;
    r := Metrics(|ds|, counts[Missing], counts[Unexpected], counts[Modified], counts[Conflict], counts[Duplicate],
      counts[Unsupported], counts[Unknown]);
  }
}
