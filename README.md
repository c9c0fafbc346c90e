# Tac2AR segment manifest, modelled in Dafny

Tac2AR turns a CT scan into a set of labelled, coloured meshes for augmented
reality. A segmentation tool labels every voxel. The pipeline then builds a
*segment manifest*: an ordered dictionary from segment name to

- the label id;
- SNOMED details, looked up in a CSV table;
- custom parameters: display name, export flags, biological category, shader
  and material, colour override.

This project models how that manifest is built, how its names are normalised,
and how it is consumed:

- `text.dfy` (`Text`): the Python string operations the core relies on, on
  ASCII text. These are `split`, `join`, `lower`, `capitalize`, `title`,
  `strip`, `endswith`, substring `in`, `f"{n}"` and `int(s, base)`.
- `names.dfy` (`NameNormalizer`):
  - `plural_to_singular` and `number_to_ordinal`;
  - the hex pair parse of `hex_to_rgb`;
  - `strip_qualifier_suffixes` (a loop that strips one suffix per pass);
  - `generate_snomed_candidate_names` (its list-building loops and the
    `seen`-set pass).
- `csv_index.dfy` (`CsvLoader`): the row loop of `load_csv`.
- `manifest.dfy` (`Manifest`): the manifest entry, and the manifest itself as
  a class holding the key order and the entries. It also holds the
  initialisation loop of `execute_segmentator_pipeline`.
- `snomed.dfy` (`Snomed`):
  - `check_segment_volume` and `get_present_segment_ids`;
  - `load_snomed_mappings` (one Structure index and three one-to-many
    indices);
  - `populate_snomed_details_for_segments`.
- `policy.dfy` (`Policy`): `populate_custom_details_for_segments`. For each
  segment it takes the first candidate name with a truthy rule; otherwise it
  applies the fallback and reports the segment as unmapped. A truthy rule
  that is not a mapping raises `AttributeError`.
- `grouping.dfy` (`Grouping`): the decisions of
  `export_stl_from_multilabel_nii`.
  - Pass 1 walks the combined-mesh rules: it collects members by category,
    marks them grouped and adds a group entry when the union has voxels.
  - Pass 2 picks the segments exported on their own.
  - A rule that is not a mapping, an exported rule with a null category, and
    a null `combined_mesh_export` each make the exporter raise.
- `materials.dfy` (`Materials`): `match_materials_on_manifest`. It is a
  cascade of five stages: direct, partial, SNOMED type, category, default.
  The writes and the counters are modelled, and so are the ways it raises:
  - a registry that is None;
  - a `shader_ref` or `biological_categories` section that is null;
  - a list-valued category reaching the category map;
  - a chosen shader entry that is not a mapping.
- `decimation.dfy` (`Decimation`):
  - the eligibility, ratio and accumulators of `decimate_mesh_objects` over
    mutable scene objects, and the `AttributeError` of an object in the
    manifest that has no mesh data;
  - `rename_imported_objects`.
- `pipeline.dfy` (`Pipeline`): the stage order of
  `execute_segmentator_pipeline` and the ways it can end.

Each loop of the source is a method with loop invariants, proved equal to a
function that specifies it. Each stage that updates the manifest in place is
a method that takes the `SegmentManifest` object and lists it in its
`modifies` clause; the one dictionary assignment `all_segment_data[name] = e`
is the class's own method `Put`. The properties the code promises are lemmas
about those functions.

Python values are made explicit:

- In the manifest, a field the dictionary lacks and a field holding `None`
  are both `None` of an `Option`.
- A key read from the mappings YAML is a `Field`: absent, null, or a value.
  `DictGet` is `.get(key, default)`: the default for an absent key, `None` for
  a null one.
- Truthiness is a predicate: `Truthy` for strings, `RuleTruthy` for rules,
  `RowTruthy` for CSV rows.
- A biological category is either a plain string or a list. Only a plain
  string compares equal to a listed string, and only a list cannot be used as
  a dictionary key.

## Model

| member | source | states |
|---|---|---|
| NameNormalizer.PluralToSingular | utils.py:60-74 | The result is a prefix of the word. It differs from the word exactly when one of the three endings applies ("es"; "s" after a non-vowel on a word longer than two; "ae"). An "es" ending drops two characters; the other two endings drop one. |
| NameNormalizer.SingularExamples | utils.py:66-73 | "ribs" becomes "rib", "vertebrae" becomes "vertebra", "boxes" becomes "box". |
| NameNormalizer.SingularSurprises | utils.py:66-73 | The rules look only at the ending: "gas" is kept, "glasses" becomes "glass", "es" becomes the empty string. |
| NameNormalizer.NumberToOrdinal | utils.py:76-88 | A string `int` rejects is returned unchanged. For a number: last two digits 10..20, or last digit 0, gives "<n>th". Otherwise the result is the word for the last digit, taken with Python's floored `%`. |
| NameNormalizer.OrdinalOfRendering | utils.py:79-85 | A rendered integer is read back and gets its ordinal: "<n>th" when its last two digits are 10..20 or its last digit is 0, otherwise the word for its last digit. Only that choice depends on the last digits; "<n>th" carries the whole number. |
| NameNormalizer.OrdinalOfNonNumber | utils.py:79-88 | Any string holding an ASCII letter makes `int` raise, and comes back unchanged. |
| NameNormalizer.HexToRgb | utils.py:55-58 | A parse succeeds only when at least five characters remain after the leading '#'s. |
| NameNormalizer.Hex2Parses | utils.py:58 | `int(_, 16)` reads two upper-case hex digits back as the byte they encode. |
| NameNormalizer.HexRoundTrip | utils.py:55-58 | "#RRGGBB" parses back to the three bytes it encodes. |
| NameNormalizer.FirstSuffixFrom | utils.py:125-126 | The suffix found is the first one, in list order, that the name ends with. None means no suffix matches. |
| NameNormalizer.StripFromChain | utils.py:123-141 | Each pass appends a strictly shorter, non-empty prefix of the previous name, so the list stays a prefix chain. |
| NameNormalizer.StripQualifiersShape | utils.py:118-141 | The list starts with the name itself. Every later name is a shorter, non-empty prefix of the one before, and no name repeats. |
| NameNormalizer.DefaultSuffixesNonEmpty | utils.py:104-115 | No default suffix is empty, so the stripping loop terminates. |
| NameNormalizer.StripFirstPass | utils.py:123-135 | A name with no matching suffix gives `[name]`. Otherwise the name cut before the first matching suffix, when non-empty, is the second element. |
| NameNormalizer.StripQualifierSuffixes | utils.py:90-141 | The `while True` loop returns the stripping chain: the name first, then distinct and strictly shorter prefixes. |
| NameNormalizer.AppendIfNew | utils.py:162-163 | A new element is appended at the end; an element already present leaves the list unchanged. The old list stays a prefix, and nothing else is added. |
| NameNormalizer.DedupMembers | utils.py:178-186 | The `seen`-set pass keeps exactly the same elements, each once. |
| NameNormalizer.DedupHead | utils.py:178-186 | The first element survives de-duplication in first place. |
| NameNormalizer.DedupDistinct | utils.py:178-186 | A list that has no repeats is left unchanged. |
| NameNormalizer.AppendAllExtends | utils.py:165-176 | The `_and_` loop only appends: the list before it stays a prefix. |
| NameNormalizer.AppendAllHas | utils.py:165-176 | Every name the loop offers ends up in the list. |
| NameNormalizer.FormsListHas | utils.py:166-176 | Every `_and_` part offers itself and its readable form. |
| NameNormalizer.RawExtends | utils.py:148-176 | Before de-duplication the list starts with the stripped names and their singulars. It contains the readable form of the name and, for an `_and_` name, every part and that part's readable form. |
| NameNormalizer.CandidateMembers | utils.py:178-186 | The candidates are exactly the generated names, each once. |
| NameNormalizer.CandidateHead | utils.py:143-186 | The first candidate is the segment name itself. |
| NameNormalizer.CandidateOrder | utils.py:148-176 | The candidates come in this order: the stripped names in stripping order, then new singulars, then readable and `_and_` forms not generated before. |
| NameNormalizer.CandidateForms | utils.py:161-176 | The readable form of the name is a candidate. So are every `_and_` part and its readable form. |
| NameNormalizer.CandidateHeadIdempotent | utils.py:143-186 | Generating the candidates of the first candidate gives the same first candidate. |
| NameNormalizer.CollectSingulars | utils.py:150-157 | The loop collects, in order, the singulars that differ from their name and are not yet candidates. |
| NameNormalizer.AppendAndParts | utils.py:165-176 | The `_and_` loop's result is the base list extended with each part, its differing singular and its readable form, each only if new. The base list stays a prefix. |
| NameNormalizer.RemoveDuplicates | utils.py:178-186 | The `seen`-set loop returns the first occurrences in order: no repeats, the same elements. |
| NameNormalizer.GenerateCandidateNames | utils.py:143-186 | The whole generator returns the candidate list. It is non-empty, starts with the name and has no repeats. |
| Text.IntToStringParses | utils.py:79-81 | `int(f"{n}")` gives back `n`. |
| Text.StripKeeps | utils.py:79 | `strip` removes only whitespace: every other character of the string is still there. |
| Text.LetterRejected | utils.py:79 | `int(s)` rejects every string that holds an ASCII letter. |
| CsvLoader.RowKey | utils.py:222-223 | A row is kept exactly when its key value is present and non-empty, and then it is keyed by that value. |
| CsvLoader.LoadCsv | utils.py:188-241 | The loader yields `{}` for a missing file or a missing key column. Otherwise it yields the index of the rows. |
| CsvLoader.IndexRowsLastWins | utils.py:221-230 | The keys are exactly the non-empty key values. Each maps to the last row carrying it: a duplicate overwrites. |
| CsvLoader.SkippedRowsIgnored | utils.py:222-225 | A row with an empty or missing key leaves the dictionary unchanged. |
| Manifest.NewEntry | segmentator_pipeline.py:78-96 | A new entry holds the label id; every SNOMED and custom field is None. |
| Manifest.Inserted | segmentator_pipeline.py:78 | Dictionary assignment keeps an existing key in its place and adds a new key last: the old order stays a prefix, one longer exactly for a new key. The keys stay distinct. |
| Manifest.SegmentManifest.Put | segmentator_pipeline.py:78 | `all_segment_data[name] = e` updates the entries and the key order, and keeps the manifest well formed. |
| Manifest.InitializeManifest | segmentator_pipeline.py:75-99 | The initialisation loop builds a fresh, well-formed manifest. It holds exactly the initial order and entries. |
| Manifest.InitWellFormed | segmentator_pipeline.py:75-99 | The initial keys are distinct and each has an entry. |
| Manifest.InitEntryFor | segmentator_pipeline.py:76-96 | A name has an entry exactly when some class-map pair with that name has voxels. The entry is a fresh one for the last such id. |
| Manifest.InitIdsDistinct | segmentator_pipeline.py:76-96 | The class map is keyed by label id, so no two manifest names share an id; this is what `Grouping.MembersAreGrouped` needs. |
| Snomed.CountTrue | segmentator_ops.py:49 | The count is at most the mask size, and positive exactly when some voxel is set. |
| Snomed.LabelMask | segmentator_ops.py:183 | The mask holds, voxel by voxel, whether the label equals the id. |
| Snomed.CheckSegmentVolume | segmentator_ops.py:48-49 | A segment has volume exactly when some voxel of its mask is set. |
| Snomed.GetPresentSegmentIds | segmentator_ops.py:155-197 | The result is the class-map ids that occur in the volume, or the empty set when the file is missing. |
| Snomed.LoadSnomedMappings | segmentator_ops.py:106-153 | The loop builds the four indices. The result is None when the file cannot be opened or a row lacks the Structure column. |
| Snomed.ByStructureLastWins | segmentator_ops.py:120-122 | The Structure index maps each value to the last row carrying it. |
| Snomed.OneToManyIsFilter | segmentator_ops.py:124-134 | A one-to-many index has a key exactly for each non-empty meaning that occurs. It maps the key to all rows with that meaning, in file order. |
| Snomed.NoRowsWithEmptyMeaning | segmentator_ops.py:124-134 | An empty meaning is never a key. |
| Snomed.ResolveRow | segmentator_ops.py:68-87 | The row found is the hit of the first candidate that has one. None means no candidate hits. |
| Snomed.LookupPriority | segmentator_ops.py:68-87 | Within one candidate, Structure wins over type, and type over region; a type or region takes its first listed row. A candidate without a hit passes the lookup on to the rest. |
| Snomed.LookupCandidates | segmentator_ops.py:61-87 | The candidate loop ends on a truthy row exactly when the lookup finds one, and then on that row. |
| Snomed.WithSnomed | segmentator_ops.py:92-101 | A truthy hit replaces the five SNOMED fields with the row's values. Without one, the entry is unchanged. The id and custom fields never change. |
| Snomed.CountFound | segmentator_ops.py:99-101 | The found count never exceeds the number of segments. |
| Snomed.SnomedEntry | segmentator_ops.py:60-101 | One turn of the segment loop gives the entry its own candidates' details. It counts the segment as found exactly when a truthy row is found. |
| Snomed.SnomedStep | segmentator_ops.py:60-101 | Each turn rewrites only the visited segment's entry and adds one to the count exactly on a hit. |
| Snomed.SnomedEntries | segmentator_ops.py:57-104 | The loop yields the stage's entries. The found and not-found counts add up to the number of segments. |
| Snomed.SnomedStageEntries | segmentator_ops.py:60-101 | The stage keeps every key. It gives each entry the details found for that segment's own name. |
| Snomed.PopulateSnomedDetails | segmentator_ops.py:51-104 | In place: the key order and the key set are unchanged, and every entry gets its details. The two counts add up to the number of segments. |
| Snomed.CategoryIndexUnused | segmentator_ops.py:51-87 | The category index passed in is never consulted. |
| Snomed.LoadedRowsTruthy | segmentator_ops.py:120-122 | Every row the loader indexes is a non-empty dictionary, so a Structure key it holds is always a hit. |
| Policy.FirstRule | segmentator_ops.py:367-376 | The rule used is the truthy rule of the first candidate that has one. None means no candidate has one. |
| Policy.WithRule | segmentator_ops.py:371-374 | A rule writes the display name (default: the title-cased name), `export` (default true), the category (default "Other") and `color_override` (default None). A key set to null is written as None; a present value is copied. Nothing else changes. |
| Policy.WithFallback | segmentator_ops.py:379-385 | Without a rule, the display name is the SNOMED type or the title-cased name, `export` is true, and the category is the SNOMED category or "Other". `color_override` is untouched. |
| Policy.PolicyEntry | segmentator_ops.py:359-386 | One turn of the segment loop gives the entry its policy. It reports the segment as unmapped exactly when no candidate has a truthy rule, and raises exactly when the first truthy rule is not a mapping. |
| Policy.PolicyStep | segmentator_ops.py:359-386 | Each turn rewrites only the visited entry and appends its name to the unmapped list exactly when it is unmapped. |
| Policy.PolicyTurn | segmentator_ops.py:359-386 | A turn either raises and changes nothing, or extends the stage and the unmapped list by the visited segment. |
| Policy.FirstWhere | segmentator_ops.py:359-370 | The position of the first name the selector picks, or the end when it picks none; every name before it is passed over. With `Raising` it locates the first segment whose turn raises. |
| Policy.PolicyEntries | segmentator_ops.py:356-386 | The loop updates every entry before the first raising segment. It reports the `AttributeError` at that segment, or else the unmapped names in manifest order. |
| Policy.PopulateCustomDetails | segmentator_ops.py:351-395 | In place: the keys and their order never change. The entries before the first raising segment get their policy; the outcome is the error at that segment, or the unmapped names in manifest order. Rules that are not a mapping raise at the first segment. |
| Policy.PolicyStageEntries | segmentator_ops.py:359-386 | The stage keeps every key and applies each entry's own policy. |
| Policy.PolicyTotal | segmentator_ops.py:367-386 | After a turn that does not raise, the id, the SNOMED details and the other custom fields are kept. An unmapped segment gets a display name, `export` true and a category, and keeps its `color_override`. A mapped one has each of the three exactly when its rule does not set that key to null. |
| Policy.UnmappedExactly | segmentator_ops.py:379-380 | A name is reported as unmapped exactly when it is a segment with no truthy rule for any candidate. The list is no longer than the segments. |
| Policy.NoneRaised | segmentator_ops.py:359-370 | When the loop runs to the end, no segment's turn raised. |
| Grouping.Members | segmentator_ops.py:261-263 | A segment is a member exactly when its category is a plain string in the rule's list. |
| Grouping.FirstRaisingRule | segmentator_ops.py:249-255 | This is the position of the first combined rule whose turn raises (not a mapping, or exported with a null category), or the end when none does. |
| Grouping.FirstWithId | segmentator_ops.py:272 | `next(...)` finds the first key, in manifest order, whose entry has the id. None means no key has it. |
| Grouping.GroupEntry | segmentator_ops.py:288-296 | A group entry has no id and empty SNOMED details. It carries the rule's display name (the group name when absent, None when null), `export_as_individual_mesh` False and the rule's category (or "Other"); it has no `export`, shader or colour. |
| Grouping.RuleNames | segmentator_ops.py:305-311 | A name is a rule name exactly when some combined rule carries it. |
| Grouping.CollectMembers | segmentator_ops.py:258-263 | The member loop returns the members in manifest order. |
| Grouping.FindFirstWithId | segmentator_ops.py:272 | The scan returns the first key carrying the id. |
| Grouping.GroupMembers | segmentator_ops.py:270-283 | The loop over a group's members returns the names it marks as grouped, and whether the union of their labels has voxels. |
| Grouping.ApplyRule | segmentator_ops.py:250-299 | In place: the turn of a rule that does not raise leaves the manifest, the grouped set and the written groups as one step of pass 1 specifies. |
| Grouping.CombinedPass | segmentator_ops.py:242-299 | In place: pass 1 applies the rules in order up to the first raising one, and says whether it raised. The manifest, the grouped set and the written groups are those of the rules applied. |
| Grouping.IndividualPass | segmentator_ops.py:303-321 | Pass 2 returns, in manifest order, the segments exported on their own. |
| Grouping.ExportStl | segmentator_ops.py:220-323 | A missing or unloadable file changes nothing and exports nothing. A null rule set skips pass 1 and raises in pass 2 unless the manifest is empty. Otherwise pass 1 runs up to the first raising rule, and without a raise pass 2 follows on the manifest pass 1 left. |
| Grouping.Pass1Frame | segmentator_ops.py:249-299 | Pass 1 keeps the manifest well formed and never removes a key. It only adds or rewrites rule names, and only ever grows the grouped set. |
| Grouping.GroupedAreKeys | segmentator_ops.py:270-280 | Every name pass 1 marks as grouped is a manifest key. |
| Grouping.GroupedOfKeys | segmentator_ops.py:270-280 | The names one rule marks as grouped are manifest keys. |
| Grouping.MembersAreGrouped | segmentator_ops.py:270-280 | When each label id names one key, every member of a group is marked grouped. |
| Grouping.Partition | segmentator_ops.py:303-321 | A segment is exported on its own exactly when it is not grouped, is not a rule name, and its `export` flag is truthy. |
| Grouping.SkippedRule | segmentator_ops.py:250-267 | A rule without a truthy `export`, or whose categories match no segment, changes nothing. |
| Grouping.GroupWritten | segmentator_ops.py:265-299 | An exported rule with members marks them all as grouped. It writes its group entry exactly when the union has voxels. |
| Materials.FirstPartial | blender_ops.py:528-536 | The partial match is the first registry key, in registry order, that contains some `_`-part of the lower-cased name. |
| Materials.WithMaterial | blender_ops.py:560-565 | The four writes are the shader reference and that shader's blend file, material and colour override. Nothing else changes. |
| Materials.Bump | blender_ops.py:508-558 | The counter of the deciding stage goes up by one and no other counter moves, so the total grows by one. |
| Materials.MaterialTurn | blender_ops.py:515-565 | One turn raises exactly when the cascade or the chosen entry does. It leaves the entry as MaterialFor gives it and, when it does not raise, bumps the deciding stage's counter. |
| Materials.FirstRaisingTurn | blender_ops.py:515-565 | This is the position of the first segment whose turn raises, or the end when none does. A turn raises in the cascade (a `TypeError`) or on the chosen shader entry (an `AttributeError`). |
| Materials.MaterialStep | blender_ops.py:515-565 | Each turn rewrites only the visited entry and bumps the counter of the stage that decided it. |
| Materials.MatchEntries | blender_ops.py:505-569 | The loop updates every entry before the first raising turn. That turn keeps the `shader_ref` it wrote before raising. The outcome is that turn's `TypeError` or `AttributeError`, or else the counters. |
| Materials.MatchMaterials | blender_ops.py:499-569 | A registry that is None raises `AttributeError` and nothing changes. Otherwise, in place: the key order is kept, the entries up to the first raising turn are updated, and the outcome is that turn's error or the counters. |
| Materials.TallyTotal | blender_ops.py:520-558 | Without an error, the counters add up to the number of segments. |
| Materials.DirectFirst | blender_ops.py:520-525 | A shader named after the segment wins over every other stage. |
| Materials.NullShaderMapRaises | blender_ops.py:505-522 | A null `shader_ref` section makes the first segment raise a `TypeError`. |
| Materials.PartialFirstKey | blender_ops.py:527-536 | Without a direct match, the first key containing a name part is chosen. |
| Materials.LaterStages | blender_ops.py:538-558 | The SNOMED type shader wins, then the category map, then `default_shader`. The cascade raises exactly when a truthy category reaches the category stage and either the category map is null or the category is a list. |
| Materials.MaterialWrites | blender_ops.py:560-565 | A decided entry gets the chosen shader reference. If the chosen shader entry is a mapping, `color_override` is overwritten with its value, even None. If not, the turn raises with only the reference written. Display name, export flags and category are kept. |
| Decimation.DecimateOne | blender_ops.py:282-324 | A turn raises exactly when the object has a manifest entry but is not a mesh, and then changes nothing. Otherwise it resets both accumulators and changes only the face count, which collapses when the object is reduced. The turn's totals are ObjectTotals. |
| Decimation.FirstNoPolygons | blender_ops.py:283-292 | This is the position of the first object that has a manifest entry and is not a mesh, or the end when there is none. |
| Decimation.DecimateMeshObjects | blender_ops.py:278-326 | Objects take their turns in order up to the first that raises, which is reported by position. Later objects keep their faces. Without a raise, the totals are the last object's; an empty list ends in the `UnboundLocalError`. |
| Decimation.RatioInUnitInterval | blender_ops.py:301-302 | With a positive limit, the ratio passed to the modifier lies strictly between 0 and 1. |
| Decimation.Untouched | blender_ops.py:287-324 | An object outside the manifest, or a mesh at or below the limit, keeps its faces and reports no removal. |
| Decimation.EligibleIff | blender_ops.py:287-291 | An entry not flagged for individual export is always eligible. A flagged one is eligible exactly above `limit * 1000` faces. |
| Decimation.TotalsCount | blender_ops.py:283-324 | An eligible mesh is counted twice when reduced and three times otherwise. `poly_removed` is the new face count. |
| Decimation.RenameImportedObjects | blender_ops.py:145-155 | Every imported object, in a list or alone, is renamed and returned in order. Each gets the name Blender settles on for its turn (its last turn if listed twice). Its mesh data is kept. |
| Pipeline.ExecuteSegmentatorPipeline | segmentator_pipeline.py:40-163 | The run performs the stages in order: present ids, initialisation, SNOMED, policy, export. It ends early with nothing written when input or segmentation is missing, and fatally when a table is missing or a stage raises. Otherwise it writes the manifest, the unmapped names and the export plan those stages produce. |
| Pipeline.RunRuleStages | segmentator_pipeline.py:130-143 | The policy stage and then the exporter run on the manifest; a raise in either ends the run fatally. |
| Pipeline.FatalIff | segmentator_pipeline.py:103-163 | After segmentation, the run ends fatally exactly when the SNOMED table or the mappings YAML is missing, the policy stage raises, or the exporter raises on a loaded file. It writes the manifest exactly when none of these happens. |
| Pipeline.SegmentEntryWritten | segmentator_pipeline.py:111-143 | A written segment that is not a group name holds its policy applied to its SNOMED details. Its `export_as_individual_mesh` is still None, so decimation always treats it as eligible. |

## Left out

- File and scene I/O is not modelled: reading CSV and YAML files, loading NIfTI, marching cubes, STL and JSON writing, and every Blender call. What they read or return is a parameter: rows, voxels, flags, the collapse modifier's result.
- Floating point is not modelled: `hex_to_rgb` divides by 255.0, and the model stops at the integers before that division.
- Text is ASCII: `title`, `capitalize`, `lower` and `isspace` have no Unicode case mapping, and `int` does not accept the `0x` prefix.
- A rule's keys other than the four it writes are modelled only by whether they exist, which is all rule truthiness needs.
- A category in the YAML is a string or a list of strings. In pass 1, `', '.join(included_categories)` also raises for a number or a list holding a non-string; such values are not modelled.
- A rule's `export` value is a boolean. A string such as "false", which Python treats as truthy, is not modelled.
- A `combined_mesh_export` that is neither a mapping nor null is not modelled. For `individual_mesh_export`, every value that is not a mapping behaves as null does: its `.get` raises.
- Materials.MatchMaterials: a `shader_ref` or `biological_categories` section that is present but neither null nor a mapping (a list, say) is not modelled. Nor is the `.get` of a registry that is neither None nor a mapping.
- The category map of the shader registry holds strings only. A `None` value there would send a segment on to the default, bumping two counters; this is not modelled.
- Materials.RegistryValid: not assumed by any operation. Registry key order is taken as given.
- Decimation.DecimateMeshObjects: requires the objects to be distinct. A list naming the same Blender object twice, which would decimate it twice, is not modelled.
- Decimation.RenameImportedObjects: Blender's rule for the name an object actually gets (a numbered variant when the name is taken) is not modelled. It is a parameter `settled`.
- Decimation.RatioInUnitInterval: stated for a positive limit. A limit of 0 gives a ratio of 0, which is not covered.
- The Blender collapse modifier's own algorithm is a parameter `(faces, ratio) -> faces`.
- NameNormalizer.HexToRgb: its own contract only bounds the input length. The round trip `HexRoundTrip` carries the property.
- Snomed.CountFound: its own contract is a bound. The exact count is tied to the loop by `SnomedStep` and `PopulateSnomedDetails`.
- Concrete outputs of `strip_qualifier_suffixes` on real segment names are not stated. The shape of its result is proved instead.
- The `print` diagnostics, `traceback` output and `sys.exit` are not modelled. A caught exception becomes the `Fatal` outcome.
- `get_total_segmentator_class_map`, `fetch_input_files` and `run_total_segmentator` are external. Their results are inputs of the pipeline.
