/**
 * The clinical (SNOMED) side of segmentator_ops.py: the voxel-volume test, the
 * present-label filter, the four lookup indices built from the SNOMED CSV, and
 * the resolver that copies five detail fields into each manifest entry.
 * Voxel volumes are flattened sequences of integer labels.
 */
module Snomed {
  import opened Text
  import opened CsvLoader
  import opened Manifest
  import opened NameNormalizer

  /* ---------------- check_segment_volume / get_present_segment_ids ---------------- */

  /** `np.count_nonzero` on a boolean mask. */
  function CountTrue(mask: seq<bool>): (n: nat)
    ensures n <= |mask|
    ensures n > 0 <==> exists i :: 0 <= i < |mask| && mask[i]
    decreases |mask|
  {
    if mask == [] then 0
    else
      var rest := CountTrue(mask[1..]);
      assert forall i :: 1 <= i < |mask| ==> mask[i] == mask[1..][i - 1];
      (if mask[0] then 1 else 0) + rest
  }

  /** `data == seg_id` */
  function LabelMask(data: seq<int>, segId: int): (mask: seq<bool>)
    ensures |mask| == |data| && forall i :: 0 <= i < |data| ==> mask[i] == (data[i] == segId)
  {
    seq(|data|, i requires 0 <= i < |data| => data[i] == segId)
  }

  /** `check_segment_volume`: some voxel of the mask is set. */
  function CheckSegmentVolume(mask: seq<bool>): (r: bool)
    ensures r <==> exists i :: 0 <= i < |mask| && mask[i]
  {
    CountTrue(mask) > 0
  }

  /**
   * `get_present_segment_ids`: the class-map ids with at least one voxel
   * carrying that label; empty when the segmented file does not exist.
   */
  method GetPresentSegmentIds(fileExists: bool, data: seq<int>, classIds: seq<int>) returns (present: set<int>)
    ensures fileExists ==> present == set id | id in classIds && id in data
    ensures !fileExists ==> present == {}
  {
    present := {};
    if !fileExists {
      return;
    }
    for k := 0 to |classIds|
      invariant present == set id | id in classIds[..k] && id in data
    {
      var segId := classIds[k];
      var mask := LabelMask(data, segId);
      if CheckSegmentVolume(mask) {
        var i :| 0 <= i < |data| && data[i] == segId;
        present := present + {segId};
      } else {
        assert segId !in data;
      }
      assert classIds[..k + 1] == classIds[..k] + [segId];
    }
    assert classIds[..|classIds|] == classIds;
  }

  /* ---------------- load_snomed_mappings ---------------- */

  const StructureColumn := "Structure"
  const CategoryMeaning := "SegmentedPropertyCategoryCodeSequence.CodeMeaning"
  const TypeMeaning := "SegmentedPropertyTypeCodeSequence.CodeMeaning"
  const TypeModifierMeaning := "SegmentedPropertyTypeModifierCodeSequence.CodeMeaning"
  const RegionMeaning := "AnatomicRegionSequence.CodeMeaning"
  const TypeCodeValue := "SegmentedPropertyTypeCodeSequence.CodeValue"

  /** The four indices; `byStructure` is keyed by the raw Structure value, None for a short line. */
  datatype SnomedIndices = SnomedIndices(
    byStructure: map<Option<string>, Row>,
    byType: map<string, seq<Row>>,
    byRegion: map<string, seq<Row>>,
    byCategory: map<string, seq<Row>>)

  /** `by_structure[row['Structure']] = row` over the rows in file order. */
  function ByStructure(rows: seq<Row>): map<Option<string>, Row>
    requires forall i :: 0 <= i < |rows| ==> StructureColumn in rows[i]
    decreases |rows|
  {
    if rows == [] then map[]
    else
      var row := rows[|rows| - 1];
      ByStructure(rows[..|rows| - 1])[row[StructureColumn] := row]
  }

  /** `setdefault(meaning, []).append(row)` for every row whose meaning in `col` is truthy. */
  function OneToMany(rows: seq<Row>, col: string): map<string, seq<Row>>
    decreases |rows|
  {
    if rows == [] then map[]
    else
      var idx := OneToMany(rows[..|rows| - 1], col);
      var row := rows[|rows| - 1];
      if Truthy(Get(row, col)) then
        var m := Get(row, col).value;
        idx[m := (if m in idx then idx[m] else []) + [row]]
      else idx
  }

  /** The rows, in file order, whose value in `col` is `m`. */
  function RowsWith(rows: seq<Row>, col: string, m: string): (r: seq<Row>)
    ensures forall x :: x in r ==> x in rows && Get(x, col) == Some(m)
    decreases |rows|
  {
    if rows == [] then []
    else RowsWith(rows[..|rows| - 1], col, m) + (if Get(rows[|rows| - 1], col) == Some(m) then [rows[|rows| - 1]] else [])
  }

  predicate HasStructureColumn(rows: seq<Row>) {
    forall i :: 0 <= i < |rows| ==> StructureColumn in rows[i]
  }

  /**
   * What `load_snomed_mappings` returns: None when the file cannot be opened
   * or a row lacks the Structure column (`row['Structure']` raises KeyError).
   */
  function SnomedMappings(fileOpens: bool, rows: seq<Row>): Option<SnomedIndices> {
    if !fileOpens || !HasStructureColumn(rows) then None
    else Some(SnomedIndices(ByStructure(rows), OneToMany(rows, TypeMeaning),
                            OneToMany(rows, RegionMeaning), OneToMany(rows, CategoryMeaning)))
  }

  /** `load_snomed_mappings` with the file already read into rows. */
  method LoadSnomedMappings(fileOpens: bool, rows: seq<Row>) returns (r: Option<SnomedIndices>)
    ensures r == SnomedMappings(fileOpens, rows)
  {
    if !fileOpens {
      return None;
    }
    var byStructure: map<Option<string>, Row> := map[];
    var byType: map<string, seq<Row>> := map[];
    var byRegion: map<string, seq<Row>> := map[];
    var byCategory: map<string, seq<Row>> := map[];
    var i := 0;
    while i < |rows|
      invariant 0 <= i <= |rows|
      invariant HasStructureColumn(rows[..i])
      invariant byStructure == ByStructure(rows[..i])
      invariant byType == OneToMany(rows[..i], TypeMeaning)
      invariant byRegion == OneToMany(rows[..i], RegionMeaning)
      invariant byCategory == OneToMany(rows[..i], CategoryMeaning)
    {
      var row := rows[i];
      assert rows[..i + 1][..i] == rows[..i] && rows[..i + 1][i] == row;
      if StructureColumn !in row {
        return None;
      }
      byStructure := byStructure[row[StructureColumn] := row];
      var typeMeaning := Get(row, TypeMeaning);
      if Truthy(typeMeaning) {
        byType := byType[typeMeaning.value := (if typeMeaning.value in byType then byType[typeMeaning.value] else []) + [row]];
      }
      var regionMeaning := Get(row, RegionMeaning);
      if Truthy(regionMeaning) {
        byRegion := byRegion[regionMeaning.value := (if regionMeaning.value in byRegion then byRegion[regionMeaning.value] else []) + [row]];
      }
      var categoryMeaning := Get(row, CategoryMeaning);
      if Truthy(categoryMeaning) {
        byCategory := byCategory[categoryMeaning.value := (if categoryMeaning.value in byCategory then byCategory[categoryMeaning.value] else []) + [row]];
      }
      i := i + 1;
    }
    assert rows[..|rows|] == rows;
    return Some(SnomedIndices(byStructure, byType, byRegion, byCategory));
  }

  /** `by_structure` maps each Structure value to the LAST row carrying it. */
  lemma {:induction false} ByStructureLastWins(rows: seq<Row>, k: Option<string>)
    requires HasStructureColumn(rows)
    ensures k in ByStructure(rows) <==> exists i :: 0 <= i < |rows| && rows[i][StructureColumn] == k
    ensures k in ByStructure(rows) ==>
      exists i :: 0 <= i < |rows| && rows[i][StructureColumn] == k && ByStructure(rows)[k] == rows[i]
        && forall j :: i < j < |rows| ==> rows[j][StructureColumn] != k
    decreases |rows|
  {
    if rows != [] {
      var init := rows[..|rows| - 1];
      assert forall i :: 0 <= i < |init| ==> init[i] == rows[i];
      ByStructureLastWins(init, k);
      if rows[|rows| - 1][StructureColumn] != k && k in ByStructure(init) {
        var i :| 0 <= i < |init| && init[i][StructureColumn] == k && ByStructure(init)[k] == init[i]
          && forall j :: i < j < |init| ==> init[j][StructureColumn] != k;
        assert forall j :: i < j < |rows| ==> rows[j][StructureColumn] != k;
      }
    }
  }

  /**
   * A one-to-many index holds a key exactly for the non-empty meanings that
   * occur, and maps it to all rows with that meaning in file order.
   */
  lemma {:induction false} OneToManyIsFilter(rows: seq<Row>, col: string, m: string)
    ensures m in OneToMany(rows, col) <==> m != "" && RowsWith(rows, col, m) != []
    ensures m in OneToMany(rows, col) ==> OneToMany(rows, col)[m] == RowsWith(rows, col, m)
    decreases |rows|
  {
    if rows != [] {
      OneToManyIsFilter(rows[..|rows| - 1], col, m);
      if m == "" {
        NoRowsWithEmptyMeaning(rows, col);
      }
    }
  }

  lemma {:induction false} NoRowsWithEmptyMeaning(rows: seq<Row>, col: string)
    ensures "" !in OneToMany(rows, col)
    decreases |rows|
  {
    if rows != [] {
      NoRowsWithEmptyMeaning(rows[..|rows| - 1], col);
    }
  }

  /* ---------------- populate_snomed_details_for_segments ---------------- */

  /** `if found_snomed_entry:` — a row dictionary is truthy when it has a column. */
  predicate RowTruthy(r: Option<Row>) {
    r.Some? && r.value != map[]
  }

  /** What one candidate finds: a truthy Structure row, else the first row of a non-empty type list, else of a region list. */
  function CandidateHit(idx: SnomedIndices, c: string): Option<Row> {
    if RowTruthy(if Some(c) in idx.byStructure then Some(idx.byStructure[Some(c)]) else None) then Some(idx.byStructure[Some(c)])
    else if c in idx.byType && idx.byType[c] != [] then Some(idx.byType[c][0])
    else if c in idx.byRegion && idx.byRegion[c] != [] then Some(idx.byRegion[c][0])
    else None
  }

  /** The row the candidate loop stops at: the hit of the first candidate that has one. */
  function ResolveRow(idx: SnomedIndices, candidates: seq<string>): (r: Option<Row>)
    ensures r.None? <==> forall i :: 0 <= i < |candidates| ==> CandidateHit(idx, candidates[i]).None?
    ensures r.Some? ==> exists i :: (0 <= i < |candidates| && CandidateHit(idx, candidates[i]) == r
      && forall j :: 0 <= j < i ==> CandidateHit(idx, candidates[j]).None?)
    decreases |candidates|
  {
    if candidates == [] then None
    else
      var h := CandidateHit(idx, candidates[0]);
      if h.Some? then h
      else
        var r := ResolveRow(idx, candidates[1..]);
        assert forall i :: 1 <= i < |candidates| ==> candidates[1..][i - 1] == candidates[i];
        r
  }

  /** The five fields copied from a row. */
  function DetailsOf(row: Row): SnomedDetails {
    SnomedDetails(Get(row, CategoryMeaning), Get(row, TypeMeaning), Get(row, TypeModifierMeaning),
                  Get(row, RegionMeaning), Get(row, TypeCodeValue))
  }

  /** The entry after the stage: details replaced on a truthy hit, untouched otherwise. */
  function WithSnomed(e: Entry, idx: SnomedIndices, candidates: seq<string>): (r: Entry)
    ensures r.id == e.id && r.custom == e.custom
    ensures RowTruthy(ResolveRow(idx, candidates)) ==> r.snomed == DetailsOf(ResolveRow(idx, candidates).value)
    ensures !RowTruthy(ResolveRow(idx, candidates)) ==> r == e
  {
    var found := ResolveRow(idx, candidates);
    if RowTruthy(found) then e.(snomed := DetailsOf(found.value)) else e
  }

  /** The entry of segment `name` after the stage: the candidates are those generated from its name. */
  function SnomedFor(name: string, e: Entry, idx: SnomedIndices): Entry {
    WithSnomed(e, idx, CandidateNames(name))
  }

  /** Whether the candidates of `name` find a truthy row (`found_count` is incremented). */
  predicate Found(name: string, idx: SnomedIndices) {
    RowTruthy(ResolveRow(idx, CandidateNames(name)))
  }

  /** How many of the names find a truthy row. */
  function CountFound(names: seq<string>, idx: SnomedIndices): (n: nat)
    ensures n <= |names|
    decreases |names|
  {
    if names == [] then 0
    else CountFound(names[..|names| - 1], idx) + (if Found(names[|names| - 1], idx) then 1 else 0)
  }

  /** The candidate loop of one segment, breaking at the first hit. */
  method LookupCandidates(idx: SnomedIndices, candidates: seq<string>) returns (found: Option<Row>)
    ensures RowTruthy(found) <==> RowTruthy(ResolveRow(idx, candidates))
    ensures RowTruthy(found) ==> found == ResolveRow(idx, candidates)
  {
    found := None;
    var i := 0;
    while i < |candidates|
      invariant 0 <= i <= |candidates|
      invariant forall j :: 0 <= j < i ==> CandidateHit(idx, candidates[j]).None?
      invariant !RowTruthy(found)
    {
      var c := candidates[i];
      found := if Some(c) in idx.byStructure then Some(idx.byStructure[Some(c)]) else None;
      if RowTruthy(found) {
        return;
      }
      if c in idx.byType && idx.byType[c] != [] {
        found := Some(idx.byType[c][0]);
        return;
      }
      if c in idx.byRegion && idx.byRegion[c] != [] {
        found := Some(idx.byRegion[c][0]);
        return;
      }
      i := i + 1;
    }
  }

  /** The body of the segment loop: generate the candidates, look them up, copy the details on a hit. */
  method SnomedEntry(name: string, entry: Entry, idx: SnomedIndices) returns (e: Entry, hit: bool)
    ensures e == SnomedFor(name, entry, idx) && hit == Found(name, idx)
  {
    var candidates := GenerateCandidateNames(name);
    var row := LookupCandidates(idx, candidates);
    hit := RowTruthy(row);
    e := if hit then entry.(snomed := DetailsOf(row.value)) else entry;
  }

  /** The entries after the segment loop has visited `order`. */
  function SnomedStage(original: map<string, Entry>, order: seq<string>, idx: SnomedIndices): map<string, Entry> {
    UpdateEach(original, order, (n: string, e: Entry) => SnomedFor(n, e, idx))
  }

  /** The stage keeps every key and gives each visited entry the details its own candidates find. */
  lemma SnomedStageEntries(original: map<string, Entry>, order: seq<string>, idx: SnomedIndices)
    requires WellFormed(order, original)
    ensures forall n :: n in SnomedStage(original, order, idx) <==> n in original
    ensures forall n :: n in original ==> SnomedStage(original, order, idx)[n] == SnomedFor(n, original[n], idx)
  {
    var f := (n: string, e: Entry) => SnomedFor(n, e, idx);
    UpdateEachKeys(original, order, f);
    forall n | n in original ensures SnomedStage(original, order, idx)[n] == SnomedFor(n, original[n], idx) {
      UpdateEachAt(original, order, f, n);
    }
  }

  /** One more turn of the segment loop rewrites the next name's entry and may add one to the count. */
  lemma SnomedStep(original: map<string, Entry>, order: seq<string>, i: nat, idx: SnomedIndices)
    requires WellFormed(order, original) && i < |order|
    ensures var prev := SnomedStage(original, order[..i], idx);
      order[i] in prev
      && SnomedStage(original, order[..i + 1], idx) == prev[order[i] := SnomedFor(order[i], prev[order[i]], idx)]
    ensures CountFound(order[..i + 1], idx) == CountFound(order[..i], idx) + if Found(order[i], idx) then 1 else 0
  {
    assert order[..i + 1][..i] == order[..i];
    UpdateEachKeys(original, order[..i], (n: string, e: Entry) => SnomedFor(n, e, idx));
  }

  /** The segment loop over the key order, on the entries as values. */
  method SnomedEntries(order: seq<string>, original: map<string, Entry>, idx: SnomedIndices)
    returns (entries: map<string, Entry>, found: nat, notFound: nat)
    requires WellFormed(order, original)
    ensures entries == SnomedStage(original, order, idx)
    ensures found == CountFound(order, idx) && found + notFound == |order|
  {
    entries := original;
    found, notFound := 0, 0;
    var i := 0;
    while i < |order|
      invariant 0 <= i <= |order|
      invariant entries == SnomedStage(original, order[..i], idx)
      invariant found == CountFound(order[..i], idx) && found + notFound == i
    {
      var name := order[i];
      SnomedStep(original, order, i, idx);
      var e, hit := SnomedEntry(name, entries[name], idx);
      entries := entries[name := e];
      if hit {
        found := found + 1;
      } else {
        notFound := notFound + 1;
      }
      i := i + 1;
    }
    assert order[..i] == order;
  }

  /**
   * `populate_snomed_details_for_segments`: every entry gets the details of
   * the first candidate hit; the found and not-found counts add up to the
   * number of segments. Keys and their order do not change.
   */
  method PopulateSnomedDetails(m: SegmentManifest, idx: SnomedIndices) returns (found: nat, notFound: nat)
    requires m.Valid()
    modifies m
    ensures m.Valid() && m.order == old(m.order)
    ensures forall n :: n in m.entries <==> n in old(m.entries)
    ensures m.entries == SnomedStage(old(m.entries), m.order, idx)
    ensures forall n :: n in m.entries ==> m.entries[n] == SnomedFor(n, old(m.entries)[n], idx)
    ensures found == CountFound(m.order, idx) && found + notFound == |m.order|
  {
    var entries;
    entries, found, notFound := SnomedEntries(m.order, m.entries, idx);
    SnomedStageEntries(m.entries, m.order, idx);
    m.entries := entries;
  }

  /** The category index is accepted but never read. */
  lemma CategoryIndexUnused(idx: SnomedIndices, other: map<string, seq<Row>>, candidates: seq<string>)
    ensures ResolveRow(idx.(byCategory := other), candidates) == ResolveRow(idx, candidates)
  {
    var idx' := idx.(byCategory := other);
    assert forall c :: CandidateHit(idx', c) == CandidateHit(idx, c);
    ResolveRowCongruent(idx, idx', candidates);
  }

  lemma {:induction false} ResolveRowCongruent(a: SnomedIndices, b: SnomedIndices, candidates: seq<string>)
    requires forall c :: CandidateHit(a, c) == CandidateHit(b, c)
    ensures ResolveRow(a, candidates) == ResolveRow(b, candidates)
    decreases |candidates|
  {
    if candidates != [] {
      ResolveRowCongruent(a, b, candidates[1..]);
    }
  }

  /**
   * Within one candidate the Structure index wins over the type index, which
   * wins over the region index; type and region take the first listed row.
   */
  lemma LookupPriority(idx: SnomedIndices, c: string, rest: seq<string>)
    ensures Some(c) in idx.byStructure && idx.byStructure[Some(c)] != map[] ==>
      ResolveRow(idx, [c] + rest) == Some(idx.byStructure[Some(c)])
    ensures !(Some(c) in idx.byStructure && idx.byStructure[Some(c)] != map[]) && c in idx.byType && idx.byType[c] != [] ==>
      ResolveRow(idx, [c] + rest) == Some(idx.byType[c][0])
    ensures CandidateHit(idx, c).None? ==> ResolveRow(idx, [c] + rest) == ResolveRow(idx, rest)
  {
    assert ([c] + rest)[0] == c && ([c] + rest)[1..] == rest;
  }

  /** Every row the loader indexes is truthy, so on loaded indices a found key is always a hit. */
  lemma {:induction false} LoadedRowsTruthy(rows: seq<Row>, k: Option<string>)
    requires HasStructureColumn(rows)
    requires k in ByStructure(rows)
    ensures ByStructure(rows)[k] != map[]
  {
    ByStructureLastWins(rows, k);
  }
}
