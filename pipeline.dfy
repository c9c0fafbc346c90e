/**
 * `execute_segmentator_pipeline` (segmentator_pipeline.py): the fixed order of
 * the stages over one manifest. Everything the stages read from disk or from
 * the segmentation tool is an input here; the outcome says how the run ends
 * and, when the manifest is written, what it holds.
 */
module Pipeline {
  import opened Text
  import opened CsvLoader
  import opened Manifest
  import opened Snomed
  import opened Policy
  import opened Grouping
  import opened Decimation

  /**
   * The two sections of the mappings YAML. `individual` is Null when
   * `individual_mesh_export` holds null or any other value that is not a
   * mapping (none of them has `.get`); `combined` is Null when
   * `combined_mesh_export` holds null.
   */
  datatype Mappings = Mappings(individual: Field<map<string, Rule>>, combined: Field<seq<(string, GroupRule)>>)

  /** `segment_mappings_yaml.get('individual_mesh_export', {})`, None when it is not a mapping. */
  function SegmentRules(mp: Mappings): Option<map<string, Rule>> {
    DictGet(mp.individual, Some(map[]))
  }

  /** `segment_mappings_yaml.get('combined_mesh_export', {})`, None when it is null. */
  function CombinedRules(mp: Mappings): Option<seq<(string, GroupRule)>> {
    DictGet(mp.combined, Some([]))
  }

  /** The segment rules the policy stage applies; only an empty manifest gets past a missing mapping. */
  function AppliedRules(mp: Mappings): map<string, Rule> {
    match SegmentRules(mp)
    case Some(rules) => rules
    case None => map[]
  }

  /** `populate_custom_details_for_segments` raises on this manifest order. */
  predicate PolicyRaises(order: seq<string>, rules: Option<map<string, Rule>>) {
    match rules
    case None => order != []
    case Some(rs) => FirstRaising(order, rs) < |order|
  }

  /** The exporter raises on this manifest order (pass 1 leaves a null rule set's order as it is). */
  predicate ExportRaises(order: seq<string>, rules: Option<seq<(string, GroupRule)>>) {
    match rules
    case None => order != []
    case Some(cs) => FirstRaisingRule(cs) < |cs|
  }

  /** What the run reads from outside. */
  datatype PipelineInput = PipelineInput(
    inputFound: bool,                 // `fetch_input_files` found a file
    segmentationProduced: bool,       // `run_total_segmentator` returned a path
    segmentedFileExists: bool,        // the path exists when the present ids are computed
    voxels: seq<int>,                 // the labels of the segmented volume
    classMap: seq<(int, string)>,     // the class map, in its order
    snomedFileOpens: bool,
    snomedRows: seq<Row>,
    mappings: Option<Mappings>,       // None: `read_yaml` gave None or a non-mapping
    niftiLoaded: bool)                // the exporter could load the segmented file

  /** How the run ends. */
  datatype PipelineOutcome =
    | NoInput                         // early return, nothing written
    | SegmentationSkipped             // no segmented file, nothing written
    | Fatal                           // exception raised and caught, `sys.exit(1)`, nothing written
    | Written(order: seq<string>, entries: map<string, Entry>, unmapped: seq<string>, plan: ExportPlan)

  function ClassIds(classMap: seq<(int, string)>): (ids: seq<int>)
    ensures |ids| == |classMap| && forall i :: 0 <= i < |classMap| ==> ids[i] == classMap[i].0
  {
    seq(|classMap|, i requires 0 <= i < |classMap| => classMap[i].0)
  }

  /** The labels with voxels among the class-map ids. */
  function PresentIds(inp: PipelineInput): set<int> {
    if inp.segmentedFileExists then set id | id in ClassIds(inp.classMap) && id in inp.voxels else {}
  }

  /** How the run ends once the policy is in: the export, then the manifest is written. */
  function ExportResult(order: seq<string>, entries: map<string, Entry>, unmapped: seq<string>, mp: Mappings,
                        niftiLoaded: bool, voxels: seq<int>): PipelineOutcome
  {
    if !niftiLoaded then Written(order, entries, unmapped, ExportPlan({}, [], []))
    else if ExportRaises(order, CombinedRules(mp)) then Fatal
    else
      var cs := if CombinedRules(mp).Some? then CombinedRules(mp).value else [];
      var s := Pass1(GroupState(order, entries, {}, []), cs, voxels);
      Written(s.order, s.entries, unmapped,
              ExportPlan(s.grouped, s.groupExports, IndividualExports(s.order, s.entries, s.grouped, RuleNames(cs))))
  }

  /** How the run ends once the SNOMED details are in: the policy stage, then the export. */
  function RuleStagesResult(order: seq<string>, entries: map<string, Entry>, mp: Mappings, niftiLoaded: bool, voxels: seq<int>)
    : PipelineOutcome
  {
    if PolicyRaises(order, SegmentRules(mp)) then Fatal
    else
      var rules := AppliedRules(mp);
      ExportResult(order, PolicyStage(entries, order, rules), UnmappedNames(order, rules), mp, niftiLoaded, voxels)
  }

  /** The manifest after the stages, in their order: SNOMED, policy, then export. */
  function PipelineResult(inp: PipelineInput): PipelineOutcome {
    if !inp.inputFound then NoInput
    else if !inp.segmentationProduced then SegmentationSkipped
    else
      var order := InitOrder(inp.classMap, PresentIds(inp));
      var initial := InitEntries(inp.classMap, PresentIds(inp));
      match SnomedMappings(inp.snomedFileOpens, inp.snomedRows)
      case None => Fatal
      case Some(idx) =>
        match inp.mappings
        case None => Fatal
        case Some(mp) => RuleStagesResult(order, SnomedStage(initial, order, idx), mp, inp.niftiLoaded, inp.voxels)
  }

  /** The export call and the manifest write; an exception the exporter raises ends the run. */
  method RunExport(m: SegmentManifest, unmapped: seq<string>, mp: Mappings, niftiLoaded: bool, voxels: seq<int>)
    returns (outcome: PipelineOutcome)
    requires m.Valid()
    modifies m
    ensures outcome == ExportResult(old(m.order), old(m.entries), unmapped, mp, niftiLoaded, voxels)
  {
    ghost var order := m.order;
    var plan := ExportStl(m, niftiLoaded, CombinedRules(mp), voxels);
    if plan.None? {
      return Fatal;
    }
    if niftiLoaded && CombinedRules(mp).Some? {
      var cs := CombinedRules(mp).value;
      assert cs[..FirstRaisingRule(cs)] == cs;
    }
    outcome := Written(m.order, m.entries, unmapped, plan.value);
  }

  /** The policy and export calls on the manifest; any exception they raise ends the run. */
  method RunRuleStages(m: SegmentManifest, mp: Mappings, niftiLoaded: bool, voxels: seq<int>) returns (outcome: PipelineOutcome)
    requires m.Valid()
    modifies m
    ensures outcome == RuleStagesResult(old(m.order), old(m.entries), mp, niftiLoaded, voxels)
  {
    ghost var order, entries := m.order, m.entries;
    var policy := PopulateCustomDetails(m, SegmentRules(mp));
    if policy.AttributeError? {
      assert PolicyRaises(order, SegmentRules(mp));
      return Fatal;
    }
    assert order[..|order|] == order;
    assert m.entries == PolicyStage(entries, order, AppliedRules(mp));
    outcome := RunExport(m, policy.unmapped, mp, niftiLoaded, voxels);
  }

  /** `execute_segmentator_pipeline` */
  method ExecuteSegmentatorPipeline(inp: PipelineInput) returns (outcome: PipelineOutcome)
    ensures outcome == PipelineResult(inp)
  {
    if !inp.inputFound {
      return NoInput;
    }
    if !inp.segmentationProduced {
      return SegmentationSkipped;
    }
    var present := GetPresentSegmentIds(inp.segmentedFileExists, inp.voxels, ClassIds(inp.classMap));
    var m := InitializeManifest(inp.classMap, present);
    var indices := LoadSnomedMappings(inp.snomedFileOpens, inp.snomedRows);
    if indices.None? {
      return Fatal;
    }
    var _, _ := PopulateSnomedDetails(m, indices.value);
    if inp.mappings.None? {
      return Fatal;
    }
    outcome := RunRuleStages(m, inp.mappings.value, inp.niftiLoaded, inp.voxels);
  }

  /* ---------------- properties ---------------- */

  /**
   * The run ends fatally exactly when it gets past segmentation and the
   * SNOMED table or the mappings YAML is missing, the policy stage raises,
   * or the exporter raises on a loaded segmented file.
   */
  lemma FatalIff(inp: PipelineInput)
    ensures var order := InitOrder(inp.classMap, PresentIds(inp));
      PipelineResult(inp) == Fatal <==>
        inp.inputFound && inp.segmentationProduced
        && (SnomedMappings(inp.snomedFileOpens, inp.snomedRows).None? || inp.mappings.None?
            || PolicyRaises(order, SegmentRules(inp.mappings.value))
            || (inp.niftiLoaded && ExportRaises(order, CombinedRules(inp.mappings.value))))
    ensures var order := InitOrder(inp.classMap, PresentIds(inp));
      PipelineResult(inp).Written? <==>
        inp.inputFound && inp.segmentationProduced
        && SnomedMappings(inp.snomedFileOpens, inp.snomedRows).Some? && inp.mappings.Some?
        && !PolicyRaises(order, SegmentRules(inp.mappings.value))
        && !(inp.niftiLoaded && ExportRaises(order, CombinedRules(inp.mappings.value)))
  {
  }

  /**
   * In a written manifest, a segment that is not a group name holds the
   * policy applied to the SNOMED details of its fresh entry, in that order;
   * its `export_as_individual_mesh` is still None, so the decimation step
   * always treats it as eligible.
   */
  lemma SegmentEntryWritten(inp: PipelineInput, n: string)
    requires PipelineResult(inp).Written?
    requires n in InitEntries(inp.classMap, PresentIds(inp))
    requires CombinedRules(inp.mappings.value).Some? ==> n !in RuleNames(CombinedRules(inp.mappings.value).value)
    ensures var out := PipelineResult(inp);
      var idx := SnomedMappings(inp.snomedFileOpens, inp.snomedRows).value;
      var initial := InitEntries(inp.classMap, PresentIds(inp));
      n in out.entries
      && out.entries[n] == PolicyFor(n, SnomedFor(n, initial[n], idx), AppliedRules(inp.mappings.value))
      && out.entries[n].custom.exportAsIndividualMesh == None
      && forall faces: nat, limit: nat :: Eligible(n, faces, limit, out.entries)
  {
    var present := PresentIds(inp);
    var order, initial := InitOrder(inp.classMap, present), InitEntries(inp.classMap, present);
    var idx := SnomedMappings(inp.snomedFileOpens, inp.snomedRows).value;
    var mp := inp.mappings.value;
    InitWellFormed(inp.classMap, present);
    InitEntryFor(inp.classMap, present, n);
    var afterSnomed := SnomedStage(initial, order, idx);
    SnomedStageEntries(initial, order, idx);
    assert WellFormed(order, afterSnomed);
    var rules := AppliedRules(mp);
    var withPolicy := PolicyStage(afterSnomed, order, rules);
    PolicyStageEntries(afterSnomed, order, rules);
    NoneRaised(order, rules, n);
    PolicyTotal(n, afterSnomed[n], rules);
    assert withPolicy[n].custom.exportAsIndividualMesh == None;
    if inp.niftiLoaded {
      var cs := if CombinedRules(mp).Some? then CombinedRules(mp).value else [];
      Pass1Frame(GroupState(order, withPolicy, {}, []), cs, inp.voxels);
    }
    var out := PipelineResult(inp);
    assert out.entries[n] == withPolicy[n];
    forall faces: nat, limit: nat ensures Eligible(n, faces, limit, out.entries) {
      EligibleIff(n, faces, limit, out.entries);
    }
  }
}
