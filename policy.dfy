/**
 * The export-policy resolver `populate_custom_details_for_segments`
 * (segmentator_ops.py): the first candidate name with a truthy rule in
 * `segment_rules` decides the custom parameters of a segment; a segment
 * without one gets documented defaults and is reported as unmapped. A truthy
 * rule that is not a mapping has no `.get` and raises `AttributeError`,
 * leaving the segments before it updated.
 */
module Policy {
  import opened Text
  import opened Manifest
  import opened NameNormalizer

  /**
   * A value of `segment_rules`: a mapping with the four keys the resolver
   * reads and whether it holds any other key (which only matters for
   * truthiness), or any other YAML value (null, a scalar, a list), of which
   * only the truthiness matters.
   */
  datatype Rule =
    | Rule(
        displayName: Field<string>,
        exportFlag: Field<bool>,
        biologicalCategory: Field<CategoryValue>,
        colorOverride: Field<string>,
        otherKeys: bool)
    | Scalar(truthy: bool)

  /** `if rule:` — a mapping is truthy when it has at least one key. */
  predicate RuleTruthy(r: Rule) {
    match r
    case Rule(d, x, b, c, o) => !d.Absent? || !x.Absent? || !b.Absent? || !c.Absent? || o
    case Scalar(t) => t
  }

  /** `segment_rules.get(c)`, kept only when truthy. */
  function RuleAt(rules: map<string, Rule>, c: string): Option<Rule> {
    if c in rules && RuleTruthy(rules[c]) then Some(rules[c]) else None
  }

  /** The rule of the first candidate that has a truthy one. */
  function FirstRule(rules: map<string, Rule>, candidates: seq<string>): (r: Option<Rule>)
    ensures r.None? <==> forall i :: 0 <= i < |candidates| ==> RuleAt(rules, candidates[i]).None?
    ensures r.Some? ==> RuleTruthy(r.value) && exists i :: (0 <= i < |candidates| && RuleAt(rules, candidates[i]) == r
      && forall j :: 0 <= j < i ==> RuleAt(rules, candidates[j]).None?)
    decreases |candidates|
  {
    if candidates == [] then None
    else
      var h := RuleAt(rules, candidates[0]);
      if h.Some? then h
      else
        var r := FirstRule(rules, candidates[1..]);
        assert forall i :: 1 <= i < |candidates| ==> candidates[1..][i - 1] == candidates[i];
        r
  }

  /** `seg_name.replace("_", " ").title()` */
  function TitleName(name: string): string {
    Title(ReplaceChar(name, '_', ' '))
  }

  /**
   * The four writes of a rule hit: a missing key gives its default, a null
   * key gives None, a present value is copied.
   */
  function WithRule(name: string, c: CustomParameters, rule: Rule): (r: CustomParameters)
    requires rule.Rule?
    ensures r.displayName.Some? <==> !rule.displayName.Null?
    ensures r.exportFlag.Some? <==> !rule.exportFlag.Null?
    ensures r.biologicalCategory.Some? <==> !rule.biologicalCategory.Null?
    ensures r.colorOverride.Some? <==> rule.colorOverride.Value?
    ensures rule.displayName.Absent? ==> r.displayName == Some(TitleName(name))
    ensures rule.exportFlag.Absent? ==> r.exportFlag == Some(true)
    ensures rule.biologicalCategory.Absent? ==> r.biologicalCategory == Some(Single("Other"))
    ensures rule.displayName.Value? ==> r.displayName == Some(rule.displayName.v)
    ensures rule.exportFlag.Value? ==> r.exportFlag == Some(rule.exportFlag.v)
    ensures rule.biologicalCategory.Value? ==> r.biologicalCategory == Some(rule.biologicalCategory.v)
    ensures rule.colorOverride.Value? ==> r.colorOverride == Some(rule.colorOverride.v)
    ensures r.(displayName := c.displayName, exportFlag := c.exportFlag,
               biologicalCategory := c.biologicalCategory, colorOverride := c.colorOverride) == c
  {
    c.(displayName := DictGet(rule.displayName, Some(TitleName(name))),
       exportFlag := DictGet(rule.exportFlag, Some(true)),
       biologicalCategory := DictGet(rule.biologicalCategory, Some(Single("Other"))),
       colorOverride := DictGet(rule.colorOverride, None))
  }

  /** The fallback of an unmapped segment; `color_override` is not touched. */
  function WithFallback(name: string, e: Entry): (r: CustomParameters)
    ensures r.displayName == Some(if Truthy(e.snomed.propertyType) then e.snomed.propertyType.value else TitleName(name))
    ensures r.exportFlag == Some(true)
    ensures r.biologicalCategory == Some(Single(if Truthy(e.snomed.category) then e.snomed.category.value else "Other"))
    ensures r.(displayName := e.custom.displayName, exportFlag := e.custom.exportFlag,
               biologicalCategory := e.custom.biologicalCategory) == e.custom
  {
    e.custom.(displayName := Some(if Truthy(e.snomed.propertyType) then e.snomed.propertyType.value else TitleName(name)),
              exportFlag := Some(true),
              biologicalCategory := Some(Single(if Truthy(e.snomed.category) then e.snomed.category.value else "Other")))
  }

  /**
   * The entry of segment `name` after its turn of the loop. When the first
   * truthy rule is not a mapping the turn raises before writing; the stage
   * stops before such a segment, so its entry is left as it was.
   */
  function PolicyFor(name: string, e: Entry, rules: map<string, Rule>): Entry {
    match FirstRule(rules, CandidateNames(name))
    case Some(rule) => if rule.Rule? then e.(custom := WithRule(name, e.custom, rule)) else e
    case None => e.(custom := WithFallback(name, e))
  }

  /** No candidate of `name` has a truthy rule. */
  predicate Unmapped(name: string, rules: map<string, Rule>) {
    FirstRule(rules, CandidateNames(name)).None?
  }

  /** The first truthy rule of `name` is not a mapping: `rule.get` raises `AttributeError`. */
  predicate RuleRaises(name: string, rules: map<string, Rule>) {
    var r := FirstRule(rules, CandidateNames(name));
    r.Some? && r.value.Scalar?
  }

  /** The position of the first name that `stop` selects, or the length when there is none. */
  function FirstWhere(names: seq<string>, stop: string -> bool): (k: nat)
    ensures k <= |names|
    ensures forall j :: 0 <= j < k ==> !stop(names[j])
    ensures k < |names| ==> stop(names[k])
    decreases |names|
  {
    if names == [] then 0
    else if stop(names[0]) then 0
    else
      var k := FirstWhere(names[1..], stop);
      assert forall j :: 1 <= j < |names| ==> names[1..][j - 1] == names[j];
      k + 1
  }

  /** The position of the first segment whose turn raises, or the length when none does. */
  function FirstRaising(order: seq<string>, rules: map<string, Rule>): nat {
    FirstWhere(order, Raising(rules))
  }

  /** `RuleRaises` as a selector over names. */
  function Raising(rules: map<string, Rule>): string -> bool {
    (n: string) => RuleRaises(n, rules)
  }

  /**
   * How the stage ends: with the unmapped names, or with the `AttributeError`
   * of the named segment (`segment_rules` itself without `.get`, or a rule
   * that is not a mapping).
   */
  datatype PolicyOutcome = Reported(unmapped: seq<string>) | AttributeError(at: string)

  /** The names that `keep` selects, in order. */
  function Kept(names: seq<string>, keep: string -> bool): seq<string>
    decreases |names|
  {
    if names == [] then []
    else Kept(names[..|names| - 1], keep) + (if keep(names[|names| - 1]) then [names[|names| - 1]] else [])
  }

  /** The unmapped names, in the order visited. */
  function UnmappedNames(names: seq<string>, rules: map<string, Rule>): seq<string> {
    Kept(names, (n: string) => Unmapped(n, rules))
  }

  /** The entries after the segment loop has visited `order`. */
  function PolicyStage(original: map<string, Entry>, order: seq<string>, rules: map<string, Rule>): map<string, Entry> {
    UpdateEach(original, order, (n: string, e: Entry) => PolicyFor(n, e, rules))
  }

  /** The body of the segment loop: candidates, then the first truthy rule, else the fallback. */
  method PolicyEntry(name: string, entry: Entry, rules: map<string, Rule>) returns (e: Entry, unmapped: bool, raises: bool)
    ensures e == PolicyFor(name, entry, rules) && unmapped == Unmapped(name, rules) && raises == RuleRaises(name, rules)
  {
    var candidates := GenerateCandidateNames(name);
    var custom := entry.custom;
    var ruleFound := false;
    var i := 0;
    while i < |candidates|
      invariant 0 <= i <= |candidates|
      invariant forall j :: 0 <= j < i ==> RuleAt(rules, candidates[j]).None?
      invariant !ruleFound
    {
      var c := candidates[i];
      if c in rules && RuleTruthy(rules[c]) {
        var rule := rules[c];
        assert FirstRule(rules, candidates) == Some(rule) by {
          FirstRuleAt(rules, candidates, i);
        }
        if rule.Scalar? {
          return entry, false, true;
        }
        custom := WithRule(name, custom, rule);
        ruleFound := true;
        break;
      }
      i := i + 1;
    }
    if !ruleFound {
      custom := WithFallback(name, entry);
    }
    e := entry.(custom := custom);
    unmapped := !ruleFound;
    raises := false;
  }

  /** A truthy rule at position `i` after only misses is the first rule. */
  lemma {:induction false} FirstRuleAt(rules: map<string, Rule>, candidates: seq<string>, i: nat)
    requires i < |candidates| && RuleAt(rules, candidates[i]).Some?
    requires forall j :: 0 <= j < i ==> RuleAt(rules, candidates[j]).None?
    ensures FirstRule(rules, candidates) == RuleAt(rules, candidates[i])
    decreases i
  {
    if i > 0 {
      FirstRuleAt(rules, candidates[1..], i - 1);
    }
  }

  /** One more turn of the segment loop rewrites the next entry and may report it as unmapped. */
  lemma PolicyStep(original: map<string, Entry>, order: seq<string>, i: nat, rules: map<string, Rule>)
    requires WellFormed(order, original) && i < |order|
    ensures var prev := PolicyStage(original, order[..i], rules);
      order[i] in prev
      && PolicyStage(original, order[..i + 1], rules) == prev[order[i] := PolicyFor(order[i], prev[order[i]], rules)]
    ensures Unmapped(order[i], rules) ==> UnmappedNames(order[..i + 1], rules) == UnmappedNames(order[..i], rules) + [order[i]]
    ensures !Unmapped(order[i], rules) ==> UnmappedNames(order[..i + 1], rules) == UnmappedNames(order[..i], rules)
  {
    assert order[..i + 1][..i] == order[..i];
    UpdateEachKeys(original, order[..i], (n: string, e: Entry) => PolicyFor(n, e, rules));
  }

  /** One turn of the segment loop: the next entry is rewritten, or the turn raises and nothing changes. */
  method PolicyTurn(order: seq<string>, original: map<string, Entry>, rules: map<string, Rule>, i: nat,
                    entries: map<string, Entry>, unmapped: seq<string>)
    returns (entries': map<string, Entry>, unmapped': seq<string>, raises: bool)
    requires WellFormed(order, original) && i < |order|
    requires entries == PolicyStage(original, order[..i], rules) && unmapped == UnmappedNames(order[..i], rules)
    ensures raises == Raising(rules)(order[i])
    ensures raises ==> entries' == entries
    ensures !raises ==> entries' == PolicyStage(original, order[..i + 1], rules) && unmapped' == UnmappedNames(order[..i + 1], rules)
  {
    var name := order[i];
    PolicyStep(original, order, i, rules);
    var e, isUnmapped;
    e, isUnmapped, raises := PolicyEntry(name, entries[name], rules);
    if raises {
      return entries, unmapped, true;
    }
    entries' := entries[name := e];
    unmapped' := if isUnmapped then unmapped + [name] else unmapped;
  }

  /** The segment loop over the key order, on the entries as values. */
  method PolicyEntries(order: seq<string>, original: map<string, Entry>, rules: map<string, Rule>)
    returns (entries: map<string, Entry>, outcome: PolicyOutcome)
    requires WellFormed(order, original)
    ensures var k := FirstRaising(order, rules); entries == PolicyStage(original, order[..k], rules)
    ensures var k := FirstRaising(order, rules); k < |order| ==> outcome == AttributeError(order[k])
    ensures FirstRaising(order, rules) == |order| ==> outcome == Reported(UnmappedNames(order, rules))
  {
    entries := original;
    var unmapped := [];
    var i := 0;
    while i < |order|
      invariant 0 <= i <= |order|
      invariant entries == PolicyStage(original, order[..i], rules)
      invariant unmapped == UnmappedNames(order[..i], rules)
      invariant i <= FirstRaising(order, rules)
    {
      var raises;
      entries, unmapped, raises := PolicyTurn(order, original, rules, i, entries, unmapped);
      if raises {
        return entries, AttributeError(order[i]);
      }
      i := i + 1;
    }
    assert order[..i] == order;
    assert unmapped == UnmappedNames(order, rules);
    outcome := Reported(unmapped);
  }

  /**
   * `populate_custom_details_for_segments`: every entry in key order gets its
   * policy and the unmapped names are returned in manifest order; a rule that
   * is not a mapping raises at its segment, leaving the entries before it
   * updated. `rules` is None when `segment_rules` is not a mapping (a null
   * `individual_mesh_export`): the first segment's first lookup raises. Keys
   * and their order never change.
   */
  method PopulateCustomDetails(m: SegmentManifest, rules: Option<map<string, Rule>>) returns (outcome: PolicyOutcome)
    requires m.Valid()
    modifies m
    ensures m.Valid() && m.order == old(m.order)
    ensures forall n :: n in m.entries <==> n in old(m.entries)
    ensures rules.None? ==>
      m.entries == old(m.entries) && outcome == if m.order == [] then Reported([]) else AttributeError(m.order[0])
    ensures rules.Some? ==> var k := FirstRaising(m.order, rules.value);
      m.entries == PolicyStage(old(m.entries), m.order[..k], rules.value)
    ensures rules.Some? ==> var k := FirstRaising(m.order, rules.value);
      k < |m.order| ==> outcome == AttributeError(m.order[k])
    ensures rules.Some? && FirstRaising(m.order, rules.value) == |m.order| ==>
      outcome == Reported(UnmappedNames(m.order, rules.value))
  {
    if rules.None? {
      if m.order == [] {
        return Reported([]);
      }
      return AttributeError(m.order[0]);
    }
    var entries;
    entries, outcome := PolicyEntries(m.order, m.entries, rules.value);
    UpdateEachKeys(m.entries, m.order[..FirstRaising(m.order, rules.value)], (n: string, e: Entry) => PolicyFor(n, e, rules.value));
    m.entries := entries;
  }

  /* ---------------- properties ---------------- */

  /** A segment of a stage that ran to the end did not raise. */
  lemma NoneRaised(order: seq<string>, rules: map<string, Rule>, n: string)
    requires FirstRaising(order, rules) == |order| && n in order
    ensures !RuleRaises(n, rules)
  {
    var j :| 0 <= j < |order| && order[j] == n;
  }

  /** The stage keeps every key and gives each entry the policy of its own name. */
  lemma PolicyStageEntries(original: map<string, Entry>, order: seq<string>, rules: map<string, Rule>)
    requires WellFormed(order, original)
    ensures forall n :: n in PolicyStage(original, order, rules) <==> n in original
    ensures forall n :: n in original ==> PolicyStage(original, order, rules)[n] == PolicyFor(n, original[n], rules)
  {
    var f := (n: string, e: Entry) => PolicyFor(n, e, rules);
    UpdateEachKeys(original, order, f);
    forall n | n in original ensures PolicyStage(original, order, rules)[n] == PolicyFor(n, original[n], rules) {
      UpdateEachAt(original, order, f, n);
    }
  }

  /**
   * After a turn that does not raise, the label id, the SNOMED details and
   * the other custom fields are kept. An unmapped segment gets a display
   * name, `export` true and a category, and keeps `color_override`; a mapped
   * one has a display name, an export flag and a category exactly when its
   * rule does not set that key to null.
   */
  lemma PolicyTotal(name: string, e: Entry, rules: map<string, Rule>)
    requires !RuleRaises(name, rules)
    ensures var r := PolicyFor(name, e, rules);
      r.id == e.id && r.snomed == e.snomed
      && r.custom.exportAsIndividualMesh == e.custom.exportAsIndividualMesh
      && r.custom.shaderRef == e.custom.shaderRef
      && r.custom.blendFile == e.custom.blendFile && r.custom.blendMaterial == e.custom.blendMaterial
      && (Unmapped(name, rules) ==>
            r.custom.displayName.Some? && r.custom.exportFlag == Some(true) && r.custom.biologicalCategory.Some?
            && r.custom.colorOverride == e.custom.colorOverride)
      && (!Unmapped(name, rules) ==>
            var rule := FirstRule(rules, CandidateNames(name)).value;
            rule.Rule?
            && (r.custom.displayName.Some? <==> !rule.displayName.Null?)
            && (r.custom.exportFlag.Some? <==> !rule.exportFlag.Null?)
            && (r.custom.biologicalCategory.Some? <==> !rule.biologicalCategory.Null?))
  {
  }

  /** A name is kept exactly when it is one of the names and selected; none is invented. */
  lemma {:induction false} KeptExactly(names: seq<string>, keep: string -> bool, n: string)
    ensures n in Kept(names, keep) <==> n in names && keep(n)
    ensures |Kept(names, keep)| <= |names|
    decreases |names|
  {
    if names != [] {
      var init := names[..|names| - 1];
      KeptExactly(init, keep, n);
      assert names == init + [names[|names| - 1]];
    }
  }

  /** The reported names are exactly the visited names without a truthy rule. */
  lemma UnmappedExactly(names: seq<string>, rules: map<string, Rule>, n: string)
    ensures n in UnmappedNames(names, rules) <==> n in names && Unmapped(n, rules)
    ensures |UnmappedNames(names, rules)| <= |names|
  {
    KeptExactly(names, (n: string) => Unmapped(n, rules), n);
  }
}
