/**
 * The material resolver `match_materials_on_manifest` (blender_ops.py): a
 * five-stage cascade picks a shader reference for every manifest entry and
 * copies the material fields of that shader into the entry.
 */
module Materials {
  import opened Text
  import opened Manifest

  /** The material fields of a `shader_ref` entry; a missing or null key reads as None. */
  datatype ShaderDetails = ShaderDetails(blendFile: Option<string>, blendMaterial: Option<string>, colorOverride: Option<string>)

  /** A `shader_ref` entry: a mapping, or a value with no `.get` (null, a string, a list). */
  datatype ShaderEntry = Details(details: ShaderDetails) | NotMapping

  /**
   * The registry: the `shader_ref` keys in file order with their entries, and
   * the `biological_categories` map from category to shader reference. A
   * missing section reads as `{}`, as `.get(key, {})` gives; `shaderRefNull`
   * and `categoriesNull` mark a section present with a null value, which
   * `.get` hands on as None.
   */
  datatype Registry = Registry(shaderRefNull: bool, shaderKeys: seq<string>, shaders: map<string, ShaderEntry>,
                               categoriesNull: bool, categories: map<string, string>)

  /** The keys in order are the keys of the `shader_ref` mapping, each once. */
  ghost predicate RegistryValid(reg: Registry) {
    Distinct(reg.shaderKeys) && forall k :: k in reg.shaders <==> k in reg.shaderKeys
  }

  const DefaultShader := "default_shader"
  const ShaderSuffix := "_shader"

  /** The stage that decided, one per counter. */
  datatype Stage = Direct | Partial | SnomedType | Category | Fallback

  /**
   * The cascade's decision, or one of its two `TypeError`s: a list category
   * looked up in the category map, or `in` on a section that is None.
   */
  datatype Choice = Chosen(stage: Stage, shaderRef: string) | Unhashable | NotIterable

  /** `any(part in key.lower() for part in parts)` */
  predicate AnyPartIn(parts: seq<string>, key: string) {
    exists i :: 0 <= i < |parts| && Contains(Lower(key), parts[i])
  }

  /** `partial_matches[0]`: the first key, in registry order, containing some part. */
  function FirstPartial(keys: seq<string>, parts: seq<string>): (r: Option<string>)
    ensures r.None? <==> forall i :: 0 <= i < |keys| ==> !AnyPartIn(parts, keys[i])
    ensures r.Some? ==> exists i :: (0 <= i < |keys| && keys[i] == r.value && AnyPartIn(parts, keys[i])
      && forall j :: 0 <= j < i ==> !AnyPartIn(parts, keys[j]))
    decreases |keys|
  {
    if keys == [] then None
    else if AnyPartIn(parts, keys[0]) then Some(keys[0])
    else
      var r := FirstPartial(keys[1..], parts);
      assert forall i :: 1 <= i < |keys| ==> keys[1..][i - 1] == keys[i];
      r
  }

  /** `if biological_category_type`: a non-empty string or a non-empty list. */
  predicate CategoryTruthy(cat: Option<CategoryValue>) {
    match cat
    case Some(Single(c)) => c != ""
    case Some(ListOf(cs)) => cs != []
    case None => false
  }

  /**
   * The category stage and the default. A truthy category is looked up with
   * `in`: that raises when the category map is None, and for a list category.
   */
  function CategoryChoice(cat: Option<CategoryValue>, reg: Registry): Choice {
    match cat
    case Some(Single(c)) =>
      if c == "" then Chosen(Fallback, DefaultShader)
      else if reg.categoriesNull then NotIterable
      else if c in reg.categories then Chosen(Category, reg.categories[c])
      else Chosen(Fallback, DefaultShader)
    case Some(ListOf(cs)) =>
      if cs == [] then Chosen(Fallback, DefaultShader)
      else if reg.categoriesNull then NotIterable
      else Unhashable
    case None => Chosen(Fallback, DefaultShader)
  }

  /**
   * The cascade for one segment: direct, partial, SNOMED type, category,
   * default. The direct test is the first `in` on the shader map, so a None
   * shader map raises there.
   */
  function ChooseShader(name: string, e: Entry, reg: Registry): Choice {
    var direct := Lower(name) + ShaderSuffix;
    if reg.shaderRefNull then NotIterable
    else if direct in reg.shaders then Chosen(Direct, direct)
    else
      match FirstPartial(reg.shaderKeys, Split(Lower(name), "_"))
      case Some(k) => Chosen(Partial, k)
      case None =>
        if Truthy(e.snomed.propertyType) && Lower(e.snomed.propertyType.value) + ShaderSuffix in reg.shaders then
          Chosen(SnomedType, Lower(e.snomed.propertyType.value) + ShaderSuffix)
        else CategoryChoice(e.custom.biologicalCategory, reg)
  }

  /** `shader_ref_map.get(ref, {})` read through `.get`: the entry's fields, or all None for a missing entry. */
  function DetailsFor(reg: Registry, ref: string): ShaderDetails {
    if ref in reg.shaders && reg.shaders[ref].Details? then reg.shaders[ref].details else ShaderDetails(None, None, None)
  }

  /** The chosen entry has no `.get`: reading its `blend_file` raises `AttributeError`. */
  predicate BadShaderEntry(reg: Registry, ref: string) {
    ref in reg.shaders && reg.shaders[ref].NotMapping?
  }

  /** The four writes: the reference and the three material fields of its details. */
  function WithMaterial(e: Entry, reg: Registry, ref: string): (r: Entry)
    ensures r.id == e.id && r.snomed == e.snomed
    ensures r.custom.shaderRef == Some(ref)
    ensures r.custom.blendFile == DetailsFor(reg, ref).blendFile
    ensures r.custom.blendMaterial == DetailsFor(reg, ref).blendMaterial
    ensures r.custom.colorOverride == DetailsFor(reg, ref).colorOverride
    ensures r.custom.(shaderRef := e.custom.shaderRef, blendFile := e.custom.blendFile,
                      blendMaterial := e.custom.blendMaterial, colorOverride := e.custom.colorOverride) == e.custom
  {
    var d := DetailsFor(reg, ref);
    e.(custom := e.custom.(shaderRef := Some(ref), blendFile := d.blendFile, blendMaterial := d.blendMaterial,
                           colorOverride := d.colorOverride))
  }

  /**
   * The entry after its turn of the loop. A turn whose cascade raises leaves
   * it as it was; a turn that raises on the chosen entry's `.get` has already
   * written `shader_ref`.
   */
  function MaterialFor(name: string, e: Entry, reg: Registry): Entry {
    match ChooseShader(name, e, reg)
    case Chosen(_, ref) =>
      if BadShaderEntry(reg, ref) then e.(custom := e.custom.(shaderRef := Some(ref))) else WithMaterial(e, reg, ref)
    case _ => e
  }

  /** The segment's turn raises: in the cascade, or on the chosen entry. */
  predicate TurnRaises(name: string, e: Entry, reg: Registry) {
    var c := ChooseShader(name, e, reg);
    !c.Chosen? || BadShaderEntry(reg, c.shaderRef)
  }

  /** The five counters. */
  datatype Counts = Counts(direct: nat, partial: nat, snomed: nat, category: nat, fallback: nat)

  function Total(c: Counts): nat {
    c.direct + c.partial + c.snomed + c.category + c.fallback
  }

  /** The counter of one stage. */
  function Count(c: Counts, stage: Stage): nat {
    match stage
    case Direct => c.direct
    case Partial => c.partial
    case SnomedType => c.snomed
    case Category => c.category
    case Fallback => c.fallback
  }

  /** The counters after one more segment decided by `stage`: that stage's counter goes up by one, no other moves. */
  function Bump(c: Counts, stage: Stage): (r: Counts)
    ensures Count(r, stage) == Count(c, stage) + 1
    ensures forall t :: t != stage ==> Count(r, t) == Count(c, t)
    ensures Total(r) == Total(c) + 1
  {
    match stage
    case Direct => c.(direct := c.direct + 1)
    case Partial => c.(partial := c.partial + 1)
    case SnomedType => c.(snomed := c.snomed + 1)
    case Category => c.(category := c.category + 1)
    case Fallback => c.(fallback := c.fallback + 1)
  }

  /** The counters after the loop has visited `names` without raising. */
  function Tally(names: seq<string>, entries: map<string, Entry>, reg: Registry): Counts
    decreases |names|
  {
    if names == [] then Counts(0, 0, 0, 0, 0)
    else
      var n := names[|names| - 1];
      var prev := Tally(names[..|names| - 1], entries, reg);
      if n in entries && ChooseShader(n, entries[n], reg).Chosen? then Bump(prev, ChooseShader(n, entries[n], reg).stage) else prev
  }

  /** The position of the first segment whose turn raises, or the length when none does. */
  function FirstRaisingTurn(order: seq<string>, entries: map<string, Entry>, reg: Registry): (k: nat)
    ensures k <= |order|
    ensures forall j :: 0 <= j < k ==> !(order[j] in entries && TurnRaises(order[j], entries[order[j]], reg))
    ensures k < |order| ==> order[k] in entries && TurnRaises(order[k], entries[order[k]], reg)
    decreases |order|
  {
    if order == [] then 0
    else if order[0] in entries && TurnRaises(order[0], entries[order[0]], reg) then 0
    else
      var k := FirstRaisingTurn(order[1..], entries, reg);
      assert forall j :: 1 <= j < |order| ==> order[1..][j - 1] == order[j];
      k + 1
  }

  /** The entries after the loop has visited `names`. */
  function MaterialStage(original: map<string, Entry>, names: seq<string>, reg: Registry): map<string, Entry> {
    UpdateEach(original, names, (n: string, e: Entry) => MaterialFor(n, e, reg))
  }

  /**
   * How the function ends: with the five counters, with the `TypeError` or
   * `AttributeError` of the named segment, or with the `AttributeError` of a
   * registry that is None.
   */
  datatype MatchOutcome = Counted(counts: Counts) | TypeError(at: string) | AttributeError(at: string) | NoRegistry

  /** The error a raising turn ends the loop with. */
  function TurnError(name: string, e: Entry, reg: Registry): MatchOutcome {
    if ChooseShader(name, e, reg).Chosen? then AttributeError(name) else TypeError(name)
  }

  /** One more turn of the loop rewrites the next entry. */
  lemma MaterialStep(original: map<string, Entry>, order: seq<string>, i: nat, reg: Registry)
    requires WellFormed(order, original) && i < |order|
    ensures var prev := MaterialStage(original, order[..i], reg);
      order[i] in prev && prev[order[i]] == original[order[i]]
      && MaterialStage(original, order[..i + 1], reg) == prev[order[i] := MaterialFor(order[i], prev[order[i]], reg)]
    ensures order[i] in original && ChooseShader(order[i], original[order[i]], reg).Chosen? ==>
      Tally(order[..i + 1], original, reg) == Bump(Tally(order[..i], original, reg), ChooseShader(order[i], original[order[i]], reg).stage)
  {
    assert order[..i + 1][..i] == order[..i];
    var f := (n: string, e: Entry) => MaterialFor(n, e, reg);
    UpdateEachKeys(original, order[..i], f);
    assert Distinct(order[..i]);
    UpdateEachAt(original, order[..i], f, order[i]);
  }

  /**
   * One turn of the loop: the cascade, the counter of the deciding stage, the
   * write of `shader_ref`, then the three reads of the chosen entry.
   */
  method MaterialTurn(name: string, e: Entry, reg: Registry, counts: Counts) returns (r: Entry, next: Counts, raises: bool)
    ensures raises == TurnRaises(name, e, reg)
    ensures r == MaterialFor(name, e, reg)
    ensures !raises ==> next == Bump(counts, ChooseShader(name, e, reg).stage)
  {
    var choice := ChooseShader(name, e, reg);
    if !choice.Chosen? {
      return e, counts, true;
    }
    next := Bump(counts, choice.stage);
    r := e.(custom := e.custom.(shaderRef := Some(choice.shaderRef)));
    if BadShaderEntry(reg, choice.shaderRef) {
      return r, next, true;
    }
    r := WithMaterial(r, reg, choice.shaderRef);
    raises := false;
  }

  /** `match_materials_on_manifest` on the manifest as values, once the registry's sections are read. */
  method MatchEntries(order: seq<string>, original: map<string, Entry>, reg: Registry)
    returns (entries: map<string, Entry>, outcome: MatchOutcome)
    requires WellFormed(order, original)
    ensures var k := FirstRaisingTurn(order, original, reg);
      k < |order| ==>
        entries == MaterialStage(original, order[..k + 1], reg) && outcome == TurnError(order[k], original[order[k]], reg)
    ensures FirstRaisingTurn(order, original, reg) == |order| ==>
      entries == MaterialStage(original, order, reg) && outcome == Counted(Tally(order, original, reg))
  {
    entries := original;
    var counts := Counts(0, 0, 0, 0, 0);
    var i := 0;
    while i < |order|
      invariant 0 <= i <= |order|
      invariant entries == MaterialStage(original, order[..i], reg)
      invariant counts == Tally(order[..i], original, reg)
      invariant forall j :: 0 <= j < i ==> !TurnRaises(order[j], original[order[j]], reg)
    {
      var name := order[i];
      MaterialStep(original, order, i, reg);
      var e, next, raises := MaterialTurn(name, entries[name], reg, counts);
      entries := entries[name := e];
      if raises {
        FirstRaisingTurnAt(order, original, reg, i);
        outcome := TurnError(name, original[name], reg);
        return;
      }
      counts := next;
      i := i + 1;
    }
    assert order[..i] == order;
    FirstRaisingTurnNone(order, original, reg);
    outcome := Counted(counts);
  }

  /**
   * `match_materials_on_manifest`: every entry in key order gets the shader
   * reference the cascade picks and the material fields of that shader. A
   * registry that is None raises before the loop; otherwise the first turn
   * that raises ends it, with the entries before it updated.
   */
  method MatchMaterials(m: SegmentManifest, registry: Option<Registry>) returns (outcome: MatchOutcome)
    requires m.Valid()
    modifies m
    ensures m.Valid() && m.order == old(m.order)
    ensures registry.None? ==> m.entries == old(m.entries) && outcome == NoRegistry
    ensures registry.Some? ==> var k := FirstRaisingTurn(old(m.order), old(m.entries), registry.value);
      k < |m.order| ==>
        m.entries == MaterialStage(old(m.entries), old(m.order)[..k + 1], registry.value)
        && outcome == TurnError(m.order[k], old(m.entries)[m.order[k]], registry.value)
    ensures registry.Some? && FirstRaisingTurn(old(m.order), old(m.entries), registry.value) == |m.order| ==>
      m.entries == MaterialStage(old(m.entries), old(m.order), registry.value)
      && outcome == Counted(Tally(m.order, old(m.entries), registry.value))
  {
    if registry.None? {
      return NoRegistry;
    }
    var reg := registry.value;
    var k := FirstRaisingTurn(m.order, m.entries, reg);
    var entries;
    entries, outcome := MatchEntries(m.order, m.entries, reg);
    var reached := if k < |m.order| then m.order[..k + 1] else m.order;
    UpdateEachKeys(m.entries, reached, (n: string, e: Entry) => MaterialFor(n, e, reg));
    m.entries := entries;
  }

  /* ---------------- properties ---------------- */

  lemma {:induction false} FirstRaisingTurnAt(order: seq<string>, entries: map<string, Entry>, reg: Registry, i: nat)
    requires i < |order| && order[i] in entries && TurnRaises(order[i], entries[order[i]], reg)
    requires forall j :: 0 <= j < i ==> !(order[j] in entries && TurnRaises(order[j], entries[order[j]], reg))
    ensures FirstRaisingTurn(order, entries, reg) == i
    decreases i
  {
    if i > 0 {
      FirstRaisingTurnAt(order[1..], entries, reg, i - 1);
    }
  }

  lemma FirstRaisingTurnNone(order: seq<string>, entries: map<string, Entry>, reg: Registry)
    requires forall j :: 0 <= j < |order| ==> !(order[j] in entries && TurnRaises(order[j], entries[order[j]], reg))
    ensures FirstRaisingTurn(order, entries, reg) == |order|
  {
  }

  /** Without a `TypeError` every segment bumps exactly one counter, so the counters add up to the manifest size. */
  lemma {:induction false} TallyTotal(names: seq<string>, entries: map<string, Entry>, reg: Registry)
    requires forall n :: n in names ==> n in entries && ChooseShader(n, entries[n], reg).Chosen?
    ensures Total(Tally(names, entries, reg)) == |names|
    decreases |names|
  {
    if names != [] {
      TallyTotal(names[..|names| - 1], entries, reg);
    }
  }

  /** A `shader_ref` section that is None makes the first test of every turn raise. */
  lemma NullShaderMapRaises(order: seq<string>, entries: map<string, Entry>, reg: Registry)
    requires reg.shaderRefNull && |order| > 0 && order[0] in entries
    ensures FirstRaisingTurn(order, entries, reg) == 0
    ensures TurnError(order[0], entries[order[0]], reg) == TypeError(order[0])
  {
  }

  /** A shader named after the segment wins over every other stage. */
  lemma DirectFirst(name: string, e: Entry, reg: Registry)
    requires !reg.shaderRefNull && Lower(name) + ShaderSuffix in reg.shaders
    ensures ChooseShader(name, e, reg) == Chosen(Direct, Lower(name) + ShaderSuffix)
  {
  }

  /**
   * Without a direct match, the partial stage picks the first registry key
   * containing some `_`-separated part of the lower-cased name.
   */
  lemma PartialFirstKey(name: string, e: Entry, reg: Registry, i: nat)
    requires !reg.shaderRefNull && Lower(name) + ShaderSuffix !in reg.shaders
    requires i < |reg.shaderKeys| && AnyPartIn(Split(Lower(name), "_"), reg.shaderKeys[i])
    requires forall j :: 0 <= j < i ==> !AnyPartIn(Split(Lower(name), "_"), reg.shaderKeys[j])
    ensures ChooseShader(name, e, reg) == Chosen(Partial, reg.shaderKeys[i])
  {
    var r := FirstPartial(reg.shaderKeys, Split(Lower(name), "_"));
    var k :| 0 <= k < |reg.shaderKeys| && reg.shaderKeys[k] == r.value && AnyPartIn(Split(Lower(name), "_"), reg.shaderKeys[k])
      && forall j :: 0 <= j < k ==> !AnyPartIn(Split(Lower(name), "_"), reg.shaderKeys[j]);
    assert k == i;
  }

  /**
   * The later stages in order: the SNOMED type shader, then the category map,
   * then `default_shader`. The cascade raises exactly when a truthy category
   * reaches the category stage and either the category map is None or the
   * category is a list.
   */
  lemma LaterStages(name: string, e: Entry, reg: Registry)
    requires !reg.shaderRefNull && Lower(name) + ShaderSuffix !in reg.shaders
    requires forall j :: 0 <= j < |reg.shaderKeys| ==> !AnyPartIn(Split(Lower(name), "_"), reg.shaderKeys[j])
    ensures Truthy(e.snomed.propertyType) && Lower(e.snomed.propertyType.value) + ShaderSuffix in reg.shaders ==>
      ChooseShader(name, e, reg) == Chosen(SnomedType, Lower(e.snomed.propertyType.value) + ShaderSuffix)
    ensures !(Truthy(e.snomed.propertyType) && Lower(e.snomed.propertyType.value) + ShaderSuffix in reg.shaders) ==>
      ChooseShader(name, e, reg) == CategoryChoice(e.custom.biologicalCategory, reg)
    ensures !ChooseShader(name, e, reg).Chosen? <==>
      !(Truthy(e.snomed.propertyType) && Lower(e.snomed.propertyType.value) + ShaderSuffix in reg.shaders)
      && CategoryTruthy(e.custom.biologicalCategory)
      && (reg.categoriesNull || e.custom.biologicalCategory.value.ListOf?)
  {
  }

  /**
   * Every entry whose cascade decides gets the chosen shader reference. When
   * the chosen entry is a mapping, the three material fields follow, and
   * `color_override` is overwritten even when the shader has none; when it is
   * not, the turn raises right after writing the reference. Nothing else in
   * the entry changes.
   */
  lemma MaterialWrites(name: string, e: Entry, reg: Registry)
    requires ChooseShader(name, e, reg).Chosen?
    ensures var r := MaterialFor(name, e, reg); var ref := ChooseShader(name, e, reg).shaderRef;
      r.custom.shaderRef == Some(ref)
      && r.id == e.id && r.snomed == e.snomed
      && r.custom.displayName == e.custom.displayName && r.custom.exportFlag == e.custom.exportFlag
      && r.custom.exportAsIndividualMesh == e.custom.exportAsIndividualMesh
      && r.custom.biologicalCategory == e.custom.biologicalCategory
    ensures var ref := ChooseShader(name, e, reg).shaderRef;
      !BadShaderEntry(reg, ref) ==> MaterialFor(name, e, reg).custom.colorOverride == DetailsFor(reg, ref).colorOverride
    ensures var ref := ChooseShader(name, e, reg).shaderRef;
      BadShaderEntry(reg, ref) ==> MaterialFor(name, e, reg).custom == e.custom.(shaderRef := Some(ref))
  {
  }
}
