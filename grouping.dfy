/**
 * The set logic of `export_stl_from_multilabel_nii` (segmentator_ops.py):
 * pass 1 walks the combined-mesh rules in order, gathers the segments of each
 * exported group, marks them as grouped and, when their union has voxels,
 * inserts a synthetic group entry into the manifest; pass 2 picks the
 * segments exported on their own. Meshing and file writing are left out; the
 * volume is the flattened sequence of voxel labels. A rule that is not a
 * mapping, or an exported rule whose category is null, raises in pass 1; a
 * null `combined_mesh_export` skips pass 1 and raises in pass 2 at the first
 * segment.
 */
module Grouping {
  import opened Text
  import opened Manifest

  /**
   * A value of `combined_mesh_export`: a mapping with the three keys the
   * exporter reads (`export` is None when missing or null, both falsy), or
   * any other YAML value, which has no `.get`.
   */
  datatype GroupRule =
    | GroupRule(exportFlag: Option<bool>, biologicalCategory: Field<CategoryValue>, displayName: Field<string>)
    | GroupScalar

  /**
   * The rule's turn of pass 1 raises: `group_rules.get` on a value that is
   * not a mapping, or, for an exported rule, `', '.join([None])` on a null
   * category.
   */
  predicate GroupRuleRaises(rule: GroupRule) {
    rule.GroupScalar? || (rule.exportFlag == Some(true) && rule.biologicalCategory.Null?)
  }

  /** The position of the first rule whose turn raises, or the length when none does. */
  function FirstRaisingRule(rules: seq<(string, GroupRule)>): (k: nat)
    ensures k <= |rules|
    ensures forall j :: 0 <= j < k ==> !GroupRuleRaises(rules[j].1)
    ensures k < |rules| ==> GroupRuleRaises(rules[k].1)
    decreases |rules|
  {
    if rules == [] then 0
    else if GroupRuleRaises(rules[0].1) then 0
    else
      var k := FirstRaisingRule(rules[1..]);
      assert forall j :: 1 <= j < |rules| ==> rules[1..][j - 1] == rules[j];
      k + 1
  }

  /** `group_rules.get('biological_category', [])`, a non-list wrapped in a list. */
  function IncludedCategories(rule: GroupRule): seq<string>
    requires rule.GroupRule? && !rule.biologicalCategory.Null?
  {
    match rule.biologicalCategory
    case Absent => []
    case Value(Single(c)) => [c]
    case Value(ListOf(cs)) => cs
  }

  /**
   * `custom.get('biological_category') in included_categories`: only a plain
   * string category can equal one of the listed strings.
   */
  predicate InGroup(e: Entry, included: seq<string>) {
    e.custom.biologicalCategory.Some? && e.custom.biologicalCategory.value.Single?
    && e.custom.biologicalCategory.value.name in included
  }

  /** The names of `order` whose entry is in the group, in manifest order. */
  function Members(order: seq<string>, entries: map<string, Entry>, included: seq<string>): (r: seq<string>)
    ensures forall n :: n in r <==> n in order && n in entries && InGroup(entries[n], included)
    decreases |order|
  {
    if order == [] then []
    else
      var n := order[|order| - 1];
      Members(order[..|order| - 1], entries, included) + (if n in entries && InGroup(entries[n], included) then [n] else [])
  }

  /** `next(key for key, value in all_segment_data.items() if value['id'] == segment_id)` */
  function FirstWithId(order: seq<string>, entries: map<string, Entry>, id: Option<int>): (r: Option<string>)
    ensures r.Some? ==> exists i :: (0 <= i < |order| && order[i] == r.value && order[i] in entries && entries[order[i]].id == id
      && forall j :: 0 <= j < i ==> !(order[j] in entries && entries[order[j]].id == id))
    ensures r.None? <==> forall i :: 0 <= i < |order| ==> !(order[i] in entries && entries[order[i]].id == id)
    decreases |order|
  {
    if order == [] then None
    else if order[0] in entries && entries[order[0]].id == id then Some(order[0])
    else
      var r := FirstWithId(order[1..], entries, id);
      assert forall i :: 1 <= i < |order| ==> order[1..][i - 1] == order[i];
      r
  }

  /** The label id of a manifest name, None for a name without an entry. */
  function IdOf(entries: map<string, Entry>, n: string): Option<int> {
    if n in entries then entries[n].id else None
  }

  /** The names the member loop adds to `grouped_segments`. */
  function GroupedOf(order: seq<string>, entries: map<string, Entry>, members: seq<string>): set<string>
    decreases |members|
  {
    if members == [] then {}
    else
      var prev := GroupedOf(order, entries, members[..|members| - 1]);
      match FirstWithId(order, entries, IdOf(entries, members[|members| - 1]))
      case Some(n) => prev + {n}
      case None => prev
  }

  /** `np.sum(combined_volume) > 0`: some member's label occurs in the volume. */
  predicate UnionHasVoxels(entries: map<string, Entry>, members: seq<string>, data: seq<int>) {
    exists i :: 0 <= i < |members| && IdOf(entries, members[i]).Some? && IdOf(entries, members[i]).value in data
  }

  /** The entry written for an exported group; a null `display_name` is written as None. */
  function GroupEntry(groupName: string, rule: GroupRule): (e: Entry)
    requires rule.GroupRule? && !rule.biologicalCategory.Null?
    ensures e.id == None && e.snomed == NoSnomedDetails
    ensures rule.displayName.Absent? ==> e.custom.displayName == Some(groupName)
    ensures rule.displayName.Null? ==> e.custom.displayName == None
    ensures rule.displayName.Value? ==> e.custom.displayName == Some(rule.displayName.v)
    ensures e.custom.exportAsIndividualMesh == Some(false)
    ensures rule.biologicalCategory.Absent? ==> e.custom.biologicalCategory == Some(Single("Other"))
    ensures rule.biologicalCategory.Value? ==> e.custom.biologicalCategory == Some(rule.biologicalCategory.v)
    ensures e.custom.exportFlag == None && e.custom.shaderRef == None && e.custom.colorOverride == None
  {
    Entry(None, NoSnomedDetails,
      NoCustomParameters.(
        displayName := DictGet(rule.displayName, Some(groupName)),
        exportAsIndividualMesh := Some(false),
        biologicalCategory := DictGet(rule.biologicalCategory, Some(Single("Other")))))
  }

  /** What pass 1 has built so far: the manifest, `grouped_segments` and the groups written. */
  datatype GroupState = GroupState(order: seq<string>, entries: map<string, Entry>, grouped: set<string>, groupExports: seq<string>)

  /**
   * One rule of pass 1. A rule whose turn raises changes nothing here: pass 1
   * stops before it.
   */
  function ApplyGroupRule(s: GroupState, groupName: string, rule: GroupRule, data: seq<int>): GroupState {
    if GroupRuleRaises(rule) || rule.exportFlag != Some(true) then s
    else
      var members := Members(s.order, s.entries, IncludedCategories(rule));
      if members == [] then s
      else
        var grouped := s.grouped + GroupedOf(s.order, s.entries, members);
        if UnionHasVoxels(s.entries, members, data) then
          GroupState(Inserted(s.order, groupName), s.entries[groupName := GroupEntry(groupName, rule)], grouped, s.groupExports + [groupName])
        else
          GroupState(s.order, s.entries, grouped, s.groupExports)
  }

  /** Pass 1 over the rules in order. */
  function Pass1(s: GroupState, rules: seq<(string, GroupRule)>, data: seq<int>): GroupState
    decreases |rules|
  {
    if rules == [] then s
    else ApplyGroupRule(Pass1(s, rules[..|rules| - 1], data), rules[|rules| - 1].0, rules[|rules| - 1].1, data)
  }

  /** The names of the rules. */
  function RuleNames(rules: seq<(string, GroupRule)>): (r: set<string>)
    ensures forall n :: n in r <==> exists i :: 0 <= i < |rules| && rules[i].0 == n
  {
    set i | 0 <= i < |rules| :: rules[i].0
  }

  /** `if seg_data['custom_parameters'].get('export'):` */
  predicate ExportTruthy(e: Entry) {
    e.custom.exportFlag == Some(true)
  }

  /** Pass 2: the names exported on their own, in manifest order. */
  function IndividualExports(order: seq<string>, entries: map<string, Entry>, grouped: set<string>, ruleNames: set<string>): seq<string>
    decreases |order|
  {
    if order == [] then []
    else
      var n := order[|order| - 1];
      IndividualExports(order[..|order| - 1], entries, grouped, ruleNames)
        + (if !(n in grouped && n !in ruleNames) && n !in ruleNames && n in entries && ExportTruthy(entries[n]) then [n] else [])
  }

  /* ---------------- the methods ---------------- */

  /** The member loop of one rule. */
  method CollectMembers(order: seq<string>, entries: map<string, Entry>, included: seq<string>) returns (members: seq<string>)
    ensures members == Members(order, entries, included)
  {
    members := [];
    for i := 0 to |order|
      invariant members == Members(order[..i], entries, included)
    {
      assert order[..i + 1][..i] == order[..i];
      var n := order[i];
      if n in entries && InGroup(entries[n], included) {
        members := members + [n];
      }
    }
    assert order[..|order|] == order;
  }

  /** The `next(...)` scan for the first key with a given id. */
  method FindFirstWithId(order: seq<string>, entries: map<string, Entry>, id: Option<int>) returns (r: Option<string>)
    ensures r == FirstWithId(order, entries, id)
  {
    var i := 0;
    while i < |order|
      invariant 0 <= i <= |order|
      invariant FirstWithId(order, entries, id) == FirstWithId(order[i..], entries, id)
    {
      if order[i] in entries && entries[order[i]].id == id {
        return Some(order[i]);
      }
      assert order[i..][1..] == order[i + 1..];
      i := i + 1;
    }
    return None;
  }

  /** The loop over one group's members: mark them grouped and test the union for voxels. */
  method GroupMembers(order: seq<string>, entries: map<string, Entry>, members: seq<string>, data: seq<int>)
    returns (grouped: set<string>, hasVoxels: bool)
    ensures grouped == GroupedOf(order, entries, members)
    ensures hasVoxels == UnionHasVoxels(entries, members, data)
  {
    grouped, hasVoxels := {}, false;
    for t := 0 to |members|
      invariant grouped == GroupedOf(order, entries, members[..t])
      invariant hasVoxels == UnionHasVoxels(entries, members[..t], data)
    {
      assert members[..t + 1][..t] == members[..t];
      var id := IdOf(entries, members[t]);
      var name := FindFirstWithId(order, entries, id);
      if name.Some? {
        grouped := grouped + {name.value};
      }
      if id.Some? && id.value in data {
        hasVoxels := true;
      }
      assert UnionHasVoxels(entries, members[..t + 1], data) <==>
        UnionHasVoxels(entries, members[..t], data) || (id.Some? && id.value in data) by {
        assert members[..t + 1][t] == members[t];
      }
    }
    assert members[..|members|] == members;
  }

  /** The turn of one rule that does not raise: members, grouping, and the group entry when the union has voxels. */
  method ApplyRule(m: SegmentManifest, groupName: string, rule: GroupRule, data: seq<int>, grouped: set<string>, groupExports: seq<string>)
    returns (grouped': set<string>, groupExports': seq<string>)
    requires m.Valid() && !GroupRuleRaises(rule)
    modifies m
    ensures m.Valid()
    ensures GroupState(m.order, m.entries, grouped', groupExports')
      == ApplyGroupRule(GroupState(old(m.order), old(m.entries), grouped, groupExports), groupName, rule, data)
  {
    grouped', groupExports' := grouped, groupExports;
    if rule.exportFlag == Some(true) {
      var members := CollectMembers(m.order, m.entries, IncludedCategories(rule));
      if members != [] {
        var g, hasVoxels := GroupMembers(m.order, m.entries, members, data);
        grouped' := grouped + g;
        if hasVoxels {
          m.Put(groupName, GroupEntry(groupName, rule));
          groupExports' := groupExports + [groupName];
        }
      }
    }
  }

  /**
   * Pass 1 on the manifest: returns `grouped_segments` and the groups
   * written, or raises at the first rule whose turn raises, with the rules
   * before it applied.
   */
  method CombinedPass(m: SegmentManifest, rules: seq<(string, GroupRule)>, data: seq<int>)
    returns (grouped: set<string>, groupExports: seq<string>, raises: bool)
    requires m.Valid()
    modifies m
    ensures m.Valid()
    ensures GroupState(m.order, m.entries, grouped, groupExports)
      == Pass1(GroupState(old(m.order), old(m.entries), {}, []), rules[..FirstRaisingRule(rules)], data)
    ensures raises <==> FirstRaisingRule(rules) < |rules|
  {
    grouped, groupExports := {}, [];
    for k := 0 to |rules|
      invariant m.Valid()
      invariant k <= FirstRaisingRule(rules)
      invariant GroupState(m.order, m.entries, grouped, groupExports) == Pass1(GroupState(old(m.order), old(m.entries), {}, []), rules[..k], data)
    {
      assert rules[..k + 1][..k] == rules[..k];
      var (groupName, rule) := rules[k];
      if rule.GroupScalar? || (rule.exportFlag == Some(true) && rule.biologicalCategory.Null?) {
        return grouped, groupExports, true;
      }
      grouped, groupExports := ApplyRule(m, groupName, rule, data, grouped, groupExports);
    }
    assert rules[..|rules|] == rules;
    raises := false;
  }

  /** Pass 2 on the manifest as pass 1 left it. */
  method IndividualPass(order: seq<string>, entries: map<string, Entry>, grouped: set<string>, rules: seq<(string, GroupRule)>)
    returns (exports: seq<string>)
    ensures exports == IndividualExports(order, entries, grouped, RuleNames(rules))
  {
    var ruleNames := RuleNames(rules);
    exports := [];
    for i := 0 to |order|
      invariant exports == IndividualExports(order[..i], entries, grouped, ruleNames)
    {
      assert order[..i + 1][..i] == order[..i];
      var n := order[i];
      if n in grouped && n !in ruleNames {
        continue;
      }
      if n in ruleNames {
        continue;
      }
      if n in entries && ExportTruthy(entries[n]) {
        exports := exports + [n];
      }
    }
    assert order[..|order|] == order;
  }

  /** What the exporter decides: the groups and the single segments it meshes. */
  datatype ExportPlan = ExportPlan(grouped: set<string>, groupExports: seq<string>, individual: seq<string>)

  /**
   * `export_stl_from_multilabel_nii`: nothing happens when the segmented file
   * is missing or cannot be loaded; otherwise pass 1, then pass 2. The plan
   * is None when the exporter raises. `rules` is None for a null
   * `combined_mesh_export`: pass 1 is skipped and pass 2 raises at its first
   * `seg_name in combined_mesh_rules`, so only an empty manifest gets through.
   */
  method ExportStl(m: SegmentManifest, niftiLoaded: bool, rules: Option<seq<(string, GroupRule)>>, data: seq<int>)
    returns (plan: Option<ExportPlan>)
    requires m.Valid()
    modifies m
    ensures m.Valid()
    ensures !niftiLoaded ==> m.order == old(m.order) && m.entries == old(m.entries) && plan == Some(ExportPlan({}, [], []))
    ensures niftiLoaded && rules.None? ==>
      m.order == old(m.order) && m.entries == old(m.entries) && plan == if m.order == [] then Some(ExportPlan({}, [], [])) else None
    ensures niftiLoaded && rules.Some? ==>
      var s := Pass1(GroupState(old(m.order), old(m.entries), {}, []), rules.value[..FirstRaisingRule(rules.value)], data);
      m.order == s.order && m.entries == s.entries
    ensures niftiLoaded && rules.Some? ==>
      var s := Pass1(GroupState(old(m.order), old(m.entries), {}, []), rules.value, data);
      plan == if FirstRaisingRule(rules.value) < |rules.value| then None
              else Some(ExportPlan(s.grouped, s.groupExports, IndividualExports(s.order, s.entries, s.grouped, RuleNames(rules.value))))
  {
    if !niftiLoaded {
      return Some(ExportPlan({}, [], []));
    }
    if rules.None? {
      if m.order == [] {
        return Some(ExportPlan({}, [], []));
      }
      return None;
    }
    var grouped, groupExports, raises := CombinedPass(m, rules.value, data);
    if raises {
      return None;
    }
    assert rules.value[..|rules.value|] == rules.value;
    var individual := IndividualPass(m.order, m.entries, grouped, rules.value);
    plan := Some(ExportPlan(grouped, groupExports, individual));
  }

  /* ---------------- properties ---------------- */

  /** Pass 1 keeps the manifest a well-formed ordered dictionary and only ever writes rule names. */
  lemma {:induction false} Pass1Frame(s: GroupState, rules: seq<(string, GroupRule)>, data: seq<int>)
    requires WellFormed(s.order, s.entries)
    ensures var r := Pass1(s, rules, data);
      WellFormed(r.order, r.entries)
      && s.grouped <= r.grouped
      && (forall n :: n in s.entries ==> n in r.entries)
      && (forall n :: n in r.entries && n !in s.entries ==> n in RuleNames(rules))
      && (forall n :: n in s.entries && n !in RuleNames(rules) ==> r.entries[n] == s.entries[n])
      && (forall g :: g in r.groupExports ==> g in RuleNames(rules) || g in s.groupExports)
    decreases |rules|
  {
    if rules != [] {
      var init := rules[..|rules| - 1];
      Pass1Frame(s, init, data);
      assert forall i :: 0 <= i < |init| ==> init[i] == rules[i];
      assert rules[|rules| - 1].0 in RuleNames(rules);
    }
  }

  /** Every name pass 1 marks as grouped is a key of the manifest. */
  lemma {:induction false} GroupedAreKeys(s: GroupState, rules: seq<(string, GroupRule)>, data: seq<int>)
    requires WellFormed(s.order, s.entries) && forall n :: n in s.grouped ==> n in s.entries
    ensures var r := Pass1(s, rules, data); forall n :: n in r.grouped ==> n in r.entries
    decreases |rules|
  {
    if rules != [] {
      var init := rules[..|rules| - 1];
      GroupedAreKeys(s, init, data);
      Pass1Frame(s, init, data);
      var p := Pass1(s, init, data);
      var rule := rules[|rules| - 1].1;
      if !GroupRuleRaises(rule) && rule.exportFlag == Some(true) {
        GroupedOfKeys(p.order, p.entries, Members(p.order, p.entries, IncludedCategories(rule)));
      }
    }
  }

  /** The grouped names of one rule are manifest keys. */
  lemma {:induction false} GroupedOfKeys(order: seq<string>, entries: map<string, Entry>, members: seq<string>)
    ensures forall n :: n in GroupedOf(order, entries, members) ==> n in order && n in entries
    decreases |members|
  {
    if members != [] {
      GroupedOfKeys(order, entries, members[..|members| - 1]);
    }
  }

  /**
   * When label ids name at most one key, each member of an exported group is
   * itself marked as grouped.
   */
  lemma {:induction false} MembersAreGrouped(order: seq<string>, entries: map<string, Entry>, members: seq<string>, n: string)
    requires Distinct(order)
    requires forall a, b :: a in entries && b in entries && a != b && entries[a].id.Some? ==> entries[a].id != entries[b].id
    requires n in members && n in order && n in entries && entries[n].id.Some?
    ensures n in GroupedOf(order, entries, members)
    decreases |members|
  {
    var last := members[|members| - 1];
    if last == n {
      var r := FirstWithId(order, entries, IdOf(entries, n));
      var i :| 0 <= i < |order| && order[i] in entries && entries[order[i]].id == entries[n].id;
      assert r.Some?;
      assert r.value in entries && entries[r.value].id == entries[n].id;
    } else {
      assert n in members[..|members| - 1];
      MembersAreGrouped(order, entries, members[..|members| - 1], n);
    }
  }

  /**
   * Pass 2 partitions the segments that are not rule names: a grouped one is
   * never exported alone, and an ungrouped one is exported alone exactly when
   * its `export` flag is set.
   */
  lemma {:induction false} Partition(order: seq<string>, entries: map<string, Entry>, grouped: set<string>, ruleNames: set<string>, n: string)
    ensures n in IndividualExports(order, entries, grouped, ruleNames) <==>
      n in order && n !in grouped && n !in ruleNames && n in entries && ExportTruthy(entries[n])
    decreases |order|
  {
    if order != [] {
      var init := order[..|order| - 1];
      Partition(init, entries, grouped, ruleNames, n);
      assert order == init + [order[|order| - 1]];
    }
  }

  /** A rule whose `export` is not set, or whose categories match nothing, changes nothing. */
  lemma SkippedRule(s: GroupState, groupName: string, rule: GroupRule, data: seq<int>)
    requires rule.GroupRule?
    requires rule.exportFlag != Some(true)
      || (!rule.biologicalCategory.Null? && Members(s.order, s.entries, IncludedCategories(rule)) == [])
    ensures ApplyGroupRule(s, groupName, rule, data) == s
  {
  }

  /**
   * An exported rule with members writes its group entry exactly when the
   * union of the members' labels has voxels; the members are grouped either way.
   */
  lemma GroupWritten(s: GroupState, groupName: string, rule: GroupRule, data: seq<int>)
    requires rule.GroupRule? && rule.exportFlag == Some(true) && !rule.biologicalCategory.Null?
    ensures var members := Members(s.order, s.entries, IncludedCategories(rule));
      var r := ApplyGroupRule(s, groupName, rule, data);
      (members != [] ==> r.grouped == s.grouped + GroupedOf(s.order, s.entries, members))
      && (r.groupExports == s.groupExports + [groupName] <==> members != [] && UnionHasVoxels(s.entries, members, data))
      && (members != [] && UnionHasVoxels(s.entries, members, data) ==>
            groupName in r.entries && r.entries[groupName] == GroupEntry(groupName, rule))
  {
    var members := Members(s.order, s.entries, IncludedCategories(rule));
    if !(members != [] && UnionHasVoxels(s.entries, members, data)) {
      assert |ApplyGroupRule(s, groupName, rule, data).groupExports| == |s.groupExports|;
    }
  }
}
