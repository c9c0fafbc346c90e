/**
 * The segment manifest (`all_segment_data`): an insertion-ordered dictionary
 * from segment name to an entry holding the label id, the five SNOMED detail
 * fields and the custom parameters. Every stage of the pipeline mutates it in
 * place. A field that the Python dictionary lacks and a field that holds None
 * are both None here.
 */
module Manifest {
  import opened Text

  /** A biological category: a single name, or the raw list a group rule may carry. */
  datatype CategoryValue = Single(name: string) | ListOf(items: seq<string>)

  /** `snomed_details` */
  datatype SnomedDetails = SnomedDetails(
    category: Option<string>,
    propertyType: Option<string>,
    typeModifier: Option<string>,
    region: Option<string>,
    typeCode: Option<string>)

  /** `custom_parameters` */
  datatype CustomParameters = CustomParameters(
    displayName: Option<string>,
    exportFlag: Option<bool>,
    exportAsIndividualMesh: Option<bool>,
    biologicalCategory: Option<CategoryValue>,
    shaderRef: Option<string>,
    blendFile: Option<string>,
    blendMaterial: Option<string>,
    colorOverride: Option<string>)

  /** One manifest entry; group entries have no label id. */
  datatype Entry = Entry(id: Option<int>, snomed: SnomedDetails, custom: CustomParameters)

  const NoSnomedDetails := SnomedDetails(None, None, None, None, None)
  const NoCustomParameters := CustomParameters(None, None, None, None, None, None, None, None)

  /**
   * A key of a mapping read from YAML: missing, present with a null value, or
   * present with a value. Truthiness of a mapping counts every present key.
   */
  datatype Field<T> = Absent | Null | Value(v: T)

  /** `mapping.get(key, default)`: the default for a missing key, None for a null one. */
  function DictGet<T>(f: Field<T>, default: Option<T>): (r: Option<T>)
    ensures f.Absent? ==> r == default
    ensures f.Null? ==> r.None?
    ensures f.Value? ==> r == Some(f.v)
  {
    match f
    case Absent => default
    case Null => None
    case Value(v) => Some(v)
  }

  /** The entry created for a present label: the id, every other field None. */
  function NewEntry(id: int): (e: Entry)
    ensures e.id == Some(id) && e.snomed == NoSnomedDetails && e.custom == NoCustomParameters
  {
    Entry(Some(id), NoSnomedDetails, NoCustomParameters)
  }

  /** The key order after `d[name] = ...`: an existing key keeps its place, a new one goes last. */
  function Inserted(order: seq<string>, name: string): (r: seq<string>)
    ensures Distinct(order) ==> Distinct(r)
    ensures name in r && forall n :: n in r <==> n in order || n == name
    ensures |r| == |order| + (if name in order then 0 else 1) && r[..|order|] == order
  {
    if name in order then order else order + [name]
  }

  /** An ordered dictionary: keys in insertion order, each once, and a value for each. */
  ghost predicate WellFormed(order: seq<string>, entries: map<string, Entry>) {
    Distinct(order) && forall n :: n in entries <==> n in order
  }

  class SegmentManifest {
    var order: seq<string>
    var entries: map<string, Entry>

    ghost predicate Valid()
      reads this
    {
      WellFormed(order, entries)
    }

    constructor ()
      ensures Valid() && order == [] && entries == map[]
    {
      order := [];
      entries := map[];
    }

    /** `all_segment_data[name] = e` */
    method Put(name: string, e: Entry)
      requires Valid()
      modifies this
      ensures Valid()
      ensures entries == old(entries)[name := e]
      ensures order == Inserted(old(order), name)
    {
      order := Inserted(order, name);
      entries := entries[name := e];
    }
  }

  /* ---------------- stages that rewrite every entry in key order ---------------- */

  /** The entries after visiting `names` in order and replacing each visited entry `e` of name `n` by `f(n, e)`. */
  function UpdateEach(entries: map<string, Entry>, names: seq<string>, f: (string, Entry) -> Entry): map<string, Entry>
    decreases |names|
  {
    if names == [] then entries
    else
      var prev := UpdateEach(entries, names[..|names| - 1], f);
      var n := names[|names| - 1];
      if n in prev then prev[n := f(n, prev[n])] else prev
  }

  /** Rewriting entries never adds or removes a key. */
  lemma {:induction false} UpdateEachKeys(entries: map<string, Entry>, names: seq<string>, f: (string, Entry) -> Entry)
    ensures forall n :: n in UpdateEach(entries, names, f) <==> n in entries
    decreases |names|
  {
    if names != [] {
      UpdateEachKeys(entries, names[..|names| - 1], f);
    }
  }

  /** Visiting each key once rewrites exactly the visited entries, each from its original value. */
  lemma {:induction false} UpdateEachAt(entries: map<string, Entry>, names: seq<string>, f: (string, Entry) -> Entry, n: string)
    requires Distinct(names) && n in entries
    ensures n in UpdateEach(entries, names, f)
    ensures UpdateEach(entries, names, f)[n] == if n in names then f(n, entries[n]) else entries[n]
    decreases |names|
  {
    if names != [] {
      var init := names[..|names| - 1];
      assert Distinct(init);
      UpdateEachAt(entries, init, f, n);
      assert names == init + [names[|names| - 1]];
    }
  }

  /* ---------------- initialisation (segmentator_pipeline.py) ---------------- */

  /** Key order built by the initialisation loop over the class map `(id, name)` pairs. */
  function InitOrder(classMap: seq<(int, string)>, present: set<int>): seq<string>
    decreases |classMap|
  {
    if classMap == [] then []
    else
      var (id, name) := classMap[|classMap| - 1];
      var o := InitOrder(classMap[..|classMap| - 1], present);
      if id in present then Inserted(o, name) else o
  }

  /** Entries built by the initialisation loop. */
  function InitEntries(classMap: seq<(int, string)>, present: set<int>): map<string, Entry>
    decreases |classMap|
  {
    if classMap == [] then map[]
    else
      var (id, name) := classMap[|classMap| - 1];
      var m := InitEntries(classMap[..|classMap| - 1], present);
      if id in present then m[name := NewEntry(id)] else m
  }

  /** The `all_segment_data` loop: one fresh entry per class-map pair whose id has voxels. */
  method InitializeManifest(classMap: seq<(int, string)>, present: set<int>) returns (m: SegmentManifest)
    ensures fresh(m) && m.Valid()
    ensures m.order == InitOrder(classMap, present) && m.entries == InitEntries(classMap, present)
  {
    m := new SegmentManifest();
    for i := 0 to |classMap|
      invariant m.Valid()
      invariant m.order == InitOrder(classMap[..i], present)
      invariant m.entries == InitEntries(classMap[..i], present)
    {
      assert classMap[..i + 1][..i] == classMap[..i];
      var (segId, segName) := classMap[i];
      if segId in present {
        m.Put(segName, NewEntry(segId));
      }
    }
    assert classMap[..|classMap|] == classMap;
  }

  /** The initialised manifest is a well-formed ordered dictionary. */
  lemma {:induction false} InitWellFormed(classMap: seq<(int, string)>, present: set<int>)
    ensures WellFormed(InitOrder(classMap, present), InitEntries(classMap, present))
    decreases |classMap|
  {
    if classMap != [] {
      InitWellFormed(classMap[..|classMap| - 1], present);
    }
  }

  /**
   * An entry exists exactly for the names of pairs whose id has voxels; it
   * holds the id of the LAST such pair (a later id with the same name
   * overwrites) and every detail field is None.
   */
  lemma {:induction false} InitEntryFor(classMap: seq<(int, string)>, present: set<int>, name: string)
    ensures name in InitEntries(classMap, present) <==>
      exists i :: 0 <= i < |classMap| && classMap[i].1 == name && classMap[i].0 in present
    ensures name in InitEntries(classMap, present) ==>
      exists i :: 0 <= i < |classMap| && classMap[i].1 == name && classMap[i].0 in present
        && InitEntries(classMap, present)[name] == NewEntry(classMap[i].0)
        && forall j :: i < j < |classMap| && classMap[j].1 == name ==> classMap[j].0 !in present
    decreases |classMap|
  {
    if classMap != [] {
      var init := classMap[..|classMap| - 1];
      InitEntryFor(init, present, name);
      assert forall i :: 0 <= i < |init| ==> init[i] == classMap[i];
      var last := classMap[|classMap| - 1];
      if !(last.1 == name && last.0 in present) && name in InitEntries(init, present) {
        var i :| 0 <= i < |init| && init[i].1 == name && init[i].0 in present
          && InitEntries(init, present)[name] == NewEntry(init[i].0)
          && forall j :: i < j < |init| && init[j].1 == name ==> init[j].0 !in present;
        assert forall j :: i < j < |classMap| && classMap[j].1 == name ==> classMap[j].0 !in present;
      }
    }
  }

  /**
   * The class map is a dictionary keyed by label id, so its ids are distinct;
   * then no two manifest names share a label id.
   */
  lemma InitIdsDistinct(classMap: seq<(int, string)>, present: set<int>, a: string, b: string)
    requires forall i, j :: 0 <= i < j < |classMap| ==> classMap[i].0 != classMap[j].0
    requires a in InitEntries(classMap, present) && b in InitEntries(classMap, present) && a != b
    ensures InitEntries(classMap, present)[a].id != InitEntries(classMap, present)[b].id
  {
    var es := InitEntries(classMap, present);
    InitEntryFor(classMap, present, a);
    InitEntryFor(classMap, present, b);
    var i :| 0 <= i < |classMap| && classMap[i].1 == a && es[a] == NewEntry(classMap[i].0);
    var j :| 0 <= j < |classMap| && classMap[j].1 == b && es[b] == NewEntry(classMap[j].0);
    assert i != j;
  }
}
