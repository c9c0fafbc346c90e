/**
 * The name normaliser of utils.py: the heuristic singulariser, the ordinal
 * words, the hex colour pairs, the iterative qualifier-suffix stripper and the
 * ordered, duplicate-free list of lookup candidates for one segment name.
 */
module NameNormalizer {
  import opened Text

  /* ---------------- plural_to_singular ---------------- */

  /**
   * Rules, first match wins: a trailing "es" drops two characters; a trailing
   * "s" after a non-vowel (and not "y") drops one when the word is longer than
   * two characters; a trailing "ae" drops one; anything else is unchanged.
   */
  function PluralToSingular(s: string): (r: string)
    ensures StartsWith(s, r) && |s| - 2 <= |r| <= |s|
    ensures r == s <==>
      !(EndsWith(s, "es") || (EndsWith(s, "s") && |s| > 2 && s[|s| - 2] !in "aeiouy") || EndsWith(s, "ae"))
    ensures EndsWith(s, "es") ==> |r| == |s| - 2
    ensures r != s && !EndsWith(s, "es") ==> |r| == |s| - 1
  {
    if EndsWith(s, "es") then s[..|s| - 2]
    else if EndsWith(s, "s") && |s| > 2 && s[|s| - 2] !in "aeiouy" then s[..|s| - 1]
    else if EndsWith(s, "ae") then s[..|s| - 1]
    else s
  }

  lemma SingularExamples()
    ensures PluralToSingular("ribs") == "rib"
    ensures PluralToSingular("vertebrae") == "vertebra"
    ensures PluralToSingular("boxes") == "box"
  {
    assert "ribs"[2..] == "bs" && "ribs"[3..] == "s" && "ribs"[..3] == "rib";
    assert "vertebrae"[7..] == "ae" && "vertebrae"[8..] == "e" && "vertebrae"[..8] == "vertebra";
    assert "boxes"[3..] == "es" && "boxes"[..3] == "box";
  }

  /** The rules look only at the ending: "gas" keeps its "s" (vowel before it), "glasses" loses "es". */
  lemma SingularSurprises()
    ensures PluralToSingular("gas") == "gas"
    ensures PluralToSingular("glasses") == "glass"
    ensures PluralToSingular("es") == ""
  {
  }

  /* ---------------- number_to_ordinal ---------------- */

  const OrdinalWords: seq<string> :=
    ["First", "Second", "Third", "Fourth", "Fifth", "Sixth", "Seventh", "Eighth", "Ninth"]

  /**
   * A numeric string becomes an English ordinal: a value whose last two digits
   * are 10..20 gets "<n>th", a last digit 1..9 gets that digit's word (so 21 is
   * "First" and 102 is "Second"), a last digit 0 gets "<n>th". A string that
   * `int` rejects is returned unchanged. Python's `%` floors, like Dafny's for
   * a positive divisor, so -1 has last digit 9.
   */
  function NumberToOrdinal(numStr: string): (r: string)
    ensures ParseInteger(numStr, 10).None? ==> r == numStr
    ensures ParseInteger(numStr, 10).Some? ==>
      var n := ParseInteger(numStr, 10).value;
      if 10 <= n % 100 <= 20 || n % 10 == 0 then r == IntToString(n) + "th"
      else r == OrdinalWords[n % 10 - 1]
  {
    match ParseInteger(numStr, 10)
    case None => numStr
    case Some(n) =>
      if 10 <= n % 100 <= 20 then IntToString(n) + "th"
      else if 1 <= n % 10 <= 9 then OrdinalWords[n % 10 - 1]
      else IntToString(n) + "th"
  }

  /** The ordinal of a rendered integer depends only on the integer's last two digits. */
  lemma OrdinalOfRendering(n: int)
    ensures NumberToOrdinal(IntToString(n)) ==
      if 10 <= n % 100 <= 20 || n % 10 == 0 then IntToString(n) + "th" else OrdinalWords[n % 10 - 1]
  {
    IntToStringParses(n);
  }

  /** A string holding a letter is not a number, and comes back as it was. */
  lemma OrdinalOfNonNumber(s: string, c: char)
    requires c in s && IsLetter(c)
    ensures NumberToOrdinal(s) == s
  {
    LetterRejected(s, c);
  }

  /* ---------------- hex_to_rgb (the pair parse) ---------------- */

  /** `s[i:j]` with Python's clamping of out-of-range bounds. */
  function Slice(s: string, i: nat, j: nat): string {
    var lo := if i < |s| then i else |s|;
    var hi := if j < |s| then j else |s|;
    if lo <= hi then s[lo..hi] else ""
  }

  /**
   * The three integers `hex_to_rgb` divides by 255: leading '#' characters
   * are stripped, then the slices [0:2], [2:4], [4:6] are each read with
   * `int(_, 16)`. None stands for the ValueError a bad or empty slice raises.
   */
  function HexToRgb(hex: string): (r: Option<(int, int, int)>)
    ensures r.Some? ==> |TrimStartChar(hex, '#')| >= 5
  {
    var h := TrimStartChar(hex, '#');
    match (ParseInteger(Slice(h, 0, 2), 16), ParseInteger(Slice(h, 2, 4), 16), ParseInteger(Slice(h, 4, 6), 16))
    case (Some(r), Some(g), Some(b)) => Some((r, g, b))
    case _ => None
  }

  function HexDigit(d: nat): char
    requires d < 16
  {
    if d < 10 then ('0' as int + d) as char else ('A' as int + d - 10) as char
  }

  /** Two upper-case hex digits for a byte. */
  function Hex2(v: nat): string
    requires v < 256
  {
    [HexDigit(v / 16), HexDigit(v % 16)]
  }

  lemma {:induction false} Hex2Parses(v: nat)
    requires v < 256
    ensures ParseInteger(Hex2(v), 16) == Some(v)
  {
    var s := Hex2(v);
    assert DigitValue(s[0], 16) == Some(v / 16);
    assert DigitValue(s[1], 16) == Some(v % 16);
    assert TrimStart(s) == s && TrimEnd(s) == s;
    assert |s| == 2 && IsBaseDigit(s[0], 16) && IsBaseDigit(s[1], 16);
    assert ValidDigits(s, 16);
    assert s[..1] == [s[0]] && s[..1][..0] == [];
    assert DigitsValue(s[..1], 16) == v / 16;
    assert DigitsValue(s, 16) == v / 16 * 16 + v % 16;
  }

  /** Colour strings written as "#RRGGBB" read back as the three bytes they encode. */
  lemma HexRoundTrip(r: nat, g: nat, b: nat)
    requires r < 256 && g < 256 && b < 256
    ensures HexToRgb("#" + Hex2(r) + Hex2(g) + Hex2(b)) == Some((r, g, b))
  {
    var body := Hex2(r) + Hex2(g) + Hex2(b);
    assert "#" + Hex2(r) + Hex2(g) + Hex2(b) == "#" + body;
    assert body[0] == Hex2(r)[0] != '#';
    TrimOneHash(body);
    PairSlices(Hex2(r), Hex2(g), Hex2(b));
    Hex2Parses(r);
    Hex2Parses(g);
    Hex2Parses(b);
  }

  lemma TrimOneHash(body: string)
    requires |body| > 0 && body[0] != '#'
    ensures TrimStartChar("#" + body, '#') == body
  {
    assert ("#" + body)[0] == '#' && ("#" + body)[1..] == body;
  }

  lemma PairSlices(x: string, y: string, z: string)
    requires |x| == 2 && |y| == 2 && |z| == 2
    ensures Slice(x + y + z, 0, 2) == x && Slice(x + y + z, 2, 4) == y && Slice(x + y + z, 4, 6) == z
  {
    var w := x + y + z;
    assert w[0..2] == x && w[2..4] == y && w[4..6] == z;
  }

  /* ---------------- strip_qualifier_suffixes ---------------- */

  /* The default suffix list, group by group, in the order the stripper tries them. */
  const Laterality: seq<string> := ["_left", "_right"]
  const VerticalPosition: seq<string> := ["_upper", "_middle", "_lower"]
  const LumbarLevels: seq<string> := ["_L5", "_L4", "_L3", "_L2", "_L1"]
  const ThoracicLevels: seq<string> :=
    ["_T12", "_T11", "_T10", "_T9", "_T8", "_T7", "_T6", "_T5", "_T4", "_T3", "_T2", "_T1"]
  const CervicalLevels: seq<string> := ["_C7", "_C6", "_C5", "_C4", "_C3", "_C2", "_C1"]
  const SacralLevels: seq<string> := ["_S1"]
  const Ordinals: seq<string> := ["_1", "_2", "_3", "_4", "_5", "_6", "_7", "_8", "_9", "_10", "_11", "_12"]
  const SpinalRegions: seq<string> := ["_lumbar", "_thoracic", "_cervical"]
  const MuscleHeads: seq<string> := ["_maximus", "_medius", "_minimus"]
  const Parts: seq<string> := ["_body", "_lobe"]

  const DefaultSuffixes: seq<string> :=
    Laterality + VerticalPosition + LumbarLevels + ThoracicLevels + CervicalLevels + SacralLevels
    + Ordinals + SpinalRegions + MuscleHeads + Parts

  /** The stripper only terminates when no suffix is empty ("" ends every string). */
  predicate NonEmptySuffixes(suffixes: seq<string>) {
    forall s :: s in suffixes ==> s != ""
  }

  /** The index of the first suffix, in list order from `from`, that `name` ends with. */
  function FirstSuffixFrom(name: string, suffixes: seq<string>, from: nat): (k: Option<nat>)
    requires from <= |suffixes|
    ensures k.Some? ==> from <= k.value < |suffixes| && EndsWith(name, suffixes[k.value])
    ensures k.Some? ==> forall j :: from <= j < k.value ==> !EndsWith(name, suffixes[j])
    ensures k.None? ==> forall j :: from <= j < |suffixes| ==> !EndsWith(name, suffixes[j])
    decreases |suffixes| - from
  {
    if from == |suffixes| then None
    else if EndsWith(name, suffixes[from]) then Some(from)
    else FirstSuffixFrom(name, suffixes, from + 1)
  }

  /** What the stripping loop computes from the current name and the names derived so far. */
  function StripFrom(current: string, suffixes: seq<string>, derived: seq<string>): seq<string>
    requires NonEmptySuffixes(suffixes)
    decreases |current|
  {
    match FirstSuffixFrom(current, suffixes, 0)
    case None => derived
    case Some(k) =>
      assert suffixes[k] in suffixes;
      var next := current[..|current| - |suffixes[k]|];
      StripFrom(next, suffixes, if next != "" && next !in derived then derived + [next] else derived)
  }

  function StripQualifiers(name: string, suffixes: seq<string>): seq<string>
    requires NonEmptySuffixes(suffixes)
  {
    StripFrom(name, suffixes, [name])
  }

  /** Each later name is a strictly shorter, non-empty prefix of the one before it. */
  predicate PrefixChain(d: seq<string>) {
    forall i :: 0 < i < |d| ==> d[i] != "" && |d[i]| < |d[i - 1]| && StartsWith(d[i - 1], d[i])
  }

  lemma {:induction false} StripFromChain(current: string, suffixes: seq<string>, derived: seq<string>)
    requires NonEmptySuffixes(suffixes)
    requires |derived| > 0 && PrefixChain(derived)
    requires current == derived[|derived| - 1] || current == ""
    ensures var r := StripFrom(current, suffixes, derived);
      |r| >= |derived| && r[..|derived|] == derived && PrefixChain(r)
    decreases |current|
  {
    match FirstSuffixFrom(current, suffixes, 0)
    case None =>
    case Some(k) =>
      var next := current[..|current| - |suffixes[k]|];
      assert suffixes[k] in suffixes;
      if next != "" {
        ChainExtend(derived, next);
        var d' := derived + [next];
        assert StripFrom(current, suffixes, derived) == StripFrom(next, suffixes, d');
        StripFromChain(next, suffixes, d');
        var r := StripFrom(next, suffixes, d');
        assert r[..|derived|] == r[..|d'|][..|derived|];
      } else {
        StripFromChain(next, suffixes, derived);
      }
  }

  /** A shorter non-empty prefix of a chain's last name extends the chain and is new to it. */
  lemma ChainExtend(d: seq<string>, next: string)
    requires |d| > 0 && PrefixChain(d)
    requires next != "" && |next| < |d[|d| - 1]| && StartsWith(d[|d| - 1], next)
    ensures next !in d && PrefixChain(d + [next])
  {
    ChainLengths(d);
    var d' := d + [next];
    assert forall i :: 0 <= i < |d| ==> d'[i] == d[i];
  }

  /** In a chain every earlier name is longer than the last one. */
  lemma {:induction false} ChainLengths(d: seq<string>)
    requires |d| > 0 && PrefixChain(d)
    ensures forall i :: 0 <= i < |d| - 1 ==> |d[i]| > |d[|d| - 1]|
    decreases |d|
  {
    if |d| > 1 {
      var d' := d[..|d| - 1];
      assert PrefixChain(d');
      ChainLengths(d');
    }
  }

  lemma {:induction false} ChainDistinct(d: seq<string>)
    requires PrefixChain(d)
    ensures Distinct(d)
    decreases |d|
  {
    if |d| > 1 {
      var d' := d[..|d| - 1];
      assert PrefixChain(d');
      ChainDistinct(d');
      ChainLengths(d);
    }
  }

  /**
   * The stripper's result starts with the name itself; each later element is a
   * strictly shorter, non-empty prefix of the one before it; hence no name
   * occurs twice.
   */
  lemma StripQualifiersShape(name: string, suffixes: seq<string>)
    requires NonEmptySuffixes(suffixes)
    ensures var r := StripQualifiers(name, suffixes);
      |r| > 0 && r[0] == name && PrefixChain(r) && Distinct(r)
  {
    StripFromChain(name, suffixes, [name]);
    ChainDistinct(StripQualifiers(name, suffixes));
  }

  lemma NonEmptyConcat(a: seq<string>, b: seq<string>)
    requires NonEmptySuffixes(a) && NonEmptySuffixes(b)
    ensures NonEmptySuffixes(a + b)
  {
    assert forall s :: s in a + b ==> s in a || s in b;
  }

  lemma DefaultSuffixesNonEmpty()
    ensures NonEmptySuffixes(DefaultSuffixes)
  {
    assert NonEmptySuffixes(Laterality) && NonEmptySuffixes(VerticalPosition);
    NonEmptyConcat(Laterality, VerticalPosition);
    var d := Laterality + VerticalPosition;
    assert NonEmptySuffixes(LumbarLevels);
    NonEmptyConcat(d, LumbarLevels);
    d := d + LumbarLevels;
    assert NonEmptySuffixes(ThoracicLevels);
    NonEmptyConcat(d, ThoracicLevels);
    d := d + ThoracicLevels;
    assert NonEmptySuffixes(CervicalLevels);
    NonEmptyConcat(d, CervicalLevels);
    d := d + CervicalLevels;
    assert NonEmptySuffixes(SacralLevels);
    NonEmptyConcat(d, SacralLevels);
    d := d + SacralLevels;
    assert NonEmptySuffixes(Ordinals);
    NonEmptyConcat(d, Ordinals);
    d := d + Ordinals;
    assert NonEmptySuffixes(SpinalRegions);
    NonEmptyConcat(d, SpinalRegions);
    d := d + SpinalRegions;
    assert NonEmptySuffixes(MuscleHeads);
    NonEmptyConcat(d, MuscleHeads);
    d := d + MuscleHeads;
    assert NonEmptySuffixes(Parts);
    NonEmptyConcat(d, Parts);
  }

  /**
   * The first pass decides the shape: a name no suffix matches is returned
   * alone; otherwise the name cut before the first matching suffix, when
   * non-empty, is the second element.
   */
  lemma StripFirstPass(name: string, suffixes: seq<string>)
    requires NonEmptySuffixes(suffixes)
    ensures FirstSuffixFrom(name, suffixes, 0).None? ==> StripQualifiers(name, suffixes) == [name]
    ensures FirstSuffixFrom(name, suffixes, 0).Some? ==>
      var k := FirstSuffixFrom(name, suffixes, 0).value;
      var next := name[..|name| - |suffixes[k]|];
      var r := StripQualifiers(name, suffixes);
      next != "" ==> |r| >= 2 && r[1] == next
  {
    match FirstSuffixFrom(name, suffixes, 0)
    case None =>
    case Some(k) =>
      var next := name[..|name| - |suffixes[k]|];
      assert suffixes[k] in suffixes;
      if next != "" {
        assert PrefixChain([name]);
        ChainExtend([name], next);
        var d := [name] + [next];
        assert StripQualifiers(name, suffixes) == StripFrom(next, suffixes, d);
        StripFromChain(next, suffixes, d);
        var r := StripFrom(next, suffixes, d);
        assert r[1] == r[..|d|][1] == d[1];
      }
  }

  /** `strip_qualifier_suffixes`: the `while True` loop that strips one suffix per pass. */
  method StripQualifierSuffixes(name: string, suffixes: seq<string>) returns (derived: seq<string>)
    requires NonEmptySuffixes(suffixes)
    ensures derived == StripQualifiers(name, suffixes)
    ensures |derived| > 0 && derived[0] == name && PrefixChain(derived) && Distinct(derived)
  {
    derived := [name];
    var current := name;
    while true
      invariant StripFrom(current, suffixes, derived) == StripQualifiers(name, suffixes)
      decreases |current|
    {
      var suffixFound := false;
      var i := 0;
      ghost var before := current;
      while i < |suffixes|
        invariant 0 <= i <= |suffixes|
        invariant current == before && !suffixFound
        invariant forall j :: 0 <= j < i ==> !EndsWith(current, suffixes[j])
      {
        if EndsWith(current, suffixes[i]) {
          assert suffixes[i] in suffixes;
          assert FirstSuffixFrom(current, suffixes, 0) == Some(i);
          var next := current[..|current| - |suffixes[i]|];
          if next != "" && next !in derived {
            derived := derived + [next];
          }
          current := next;
          suffixFound := true;
          break;
        }
        i := i + 1;
      }
      if !suffixFound {
        break;
      }
    }
    StripQualifiersShape(name, suffixes);
  }

  /* ---------------- generate_snomed_candidate_names ---------------- */

  /** The singular forms of `cands[..k]` that are new to `cands`, in order. */
  function Singulars(cands: seq<string>, k: nat): seq<string>
    requires k <= |cands|
  {
    if k == 0 then []
    else
      var c := cands[k - 1];
      var s := PluralToSingular(c);
      Singulars(cands, k - 1) + (if s != c && s !in cands then [s] else [])
  }

  /** The "CodeMeaning" style: underscore tokens singularised and capitalised, joined by spaces. */
  function HumanReadable(s: string): string {
    var tokens := Split(s, "_");
    Join(seq(|tokens|, i requires 0 <= i < |tokens| => Capitalize(PluralToSingular(tokens[i]))), " ")
  }

  function AppendIfNew(l: seq<string>, x: string): (r: seq<string>)
    ensures x in r && forall y :: y in r <==> y in l || y == x
    ensures |r| == |l| + (if x in l then 0 else 1) && r[..|l|] == l
  {
    if x in l then l else l + [x]
  }

  /** An `_and_` part with its singular and its readable form, as the loop computes them. */
  function PartForms(parts: seq<string>): seq<(string, string, string)> {
    seq(|parts|, i requires 0 <= i < |parts| => (parts[i], PluralToSingular(parts[i]), HumanReadable(parts[i])))
  }

  /** What one `_and_` part offers, in order: itself, its singular when different, its readable form. */
  function FormList(form: (string, string, string)): seq<string> {
    [form.0] + (if form.1 != form.0 then [form.1] else []) + [form.2]
  }

  /** What the first `k` parts offer, in order. */
  function FormsList(forms: seq<(string, string, string)>, k: nat): seq<string>
    requires k <= |forms|
  {
    if k == 0 then [] else FormsList(forms, k - 1) + FormList(forms[k - 1])
  }

  /** Each name of `xs` in turn, appended when the list does not hold it yet. */
  function AppendAll(l: seq<string>, xs: seq<string>): seq<string> {
    if xs == [] then l else AppendIfNew(AppendAll(l, xs[..|xs| - 1]), xs[|xs| - 1])
  }

  /** First occurrences only, in order: the `seen`-set loop. */
  function Dedup(s: seq<string>): seq<string> {
    if s == [] then []
    else
      var d := Dedup(s[..|s| - 1]);
      if s[|s| - 1] in d then d else d + [s[|s| - 1]]
  }

  /** The stripped names followed by their new singular forms. */
  function StrippedAndSingulars(name: string): seq<string> {
    DefaultSuffixesNonEmpty();
    var stripped := StripQualifiers(name, DefaultSuffixes);
    stripped + Singulars(stripped, |stripped|)
  }

  /** The candidate list before the final de-duplication. */
  function RawCandidates(name: string): seq<string> {
    var c := AppendIfNew(StrippedAndSingulars(name), HumanReadable(name));
    if Contains(name, "_and_") then
      var parts := Split(name, "_and_");
      AppendAll(c, FormsList(PartForms(parts), |parts|))
    else c
  }

  function CandidateNames(name: string): seq<string> {
    Dedup(RawCandidates(name))
  }

  /* Properties of Dedup */

  lemma {:induction false} DedupMembers(s: seq<string>)
    ensures forall x :: x in Dedup(s) <==> x in s
    ensures Distinct(Dedup(s))
    decreases |s|
  {
    if s != [] {
      DedupMembers(s[..|s| - 1]);
      assert s == s[..|s| - 1] + [s[|s| - 1]];
    }
  }

  lemma {:induction false} DedupHead(s: seq<string>)
    requires |s| > 0
    ensures |Dedup(s)| > 0 && Dedup(s)[0] == s[0]
    decreases |s|
  {
    if |s| > 1 {
      DedupHead(s[..|s| - 1]);
    }
  }

  /** Deduplicating a list that already has no repeats changes nothing. */
  lemma {:induction false} DedupDistinct(s: seq<string>)
    requires Distinct(s)
    ensures Dedup(s) == s
    decreases |s|
  {
    if s != [] {
      var init := s[..|s| - 1];
      DedupDistinct(init);
      assert s[|s| - 1] !in init;
      assert init + [s[|s| - 1]] == s;
    }
  }

  /**
   * Deduplicating `a + b` keeps `Dedup(a)` as its prefix and adds after it only
   * elements of `b` that are not in `a`.
   */
  lemma {:induction false} DedupAppend(a: seq<string>, b: seq<string>)
    ensures var d := Dedup(a + b);
      |Dedup(a)| <= |d| && d[..|Dedup(a)|] == Dedup(a)
      && forall i :: |Dedup(a)| <= i < |d| ==> d[i] in b && d[i] !in a
    decreases |b|
  {
    if b == [] {
      assert a + b == a;
    } else {
      var b' := b[..|b| - 1];
      DedupAppend(a, b');
      assert (a + b)[..|a + b| - 1] == a + b';
      DedupMembers(a);
    }
  }

  /* Properties of the candidate list */

  lemma StrippedPrefix(name: string)
    ensures NonEmptySuffixes(DefaultSuffixes)
    ensures var s := StripQualifiers(name, DefaultSuffixes);
      |s| <= |StrippedAndSingulars(name)| && StrippedAndSingulars(name)[..|s|] == s && Distinct(s)
  {
    DefaultSuffixesNonEmpty();
    StripQualifiersShape(name, DefaultSuffixes);
    var s := StripQualifiers(name, DefaultSuffixes);
    assert StrippedAndSingulars(name)[..|s|] == s;
  }

  /** Appending only ever appends: the list before stays a prefix. */
  lemma {:induction false} AppendAllExtends(l: seq<string>, xs: seq<string>)
    ensures var r := AppendAll(l, xs); |l| <= |r| && r[..|l|] == l
  {
    if xs != [] {
      AppendAllExtends(l, xs[..|xs| - 1]);
      var prev := AppendAll(l, xs[..|xs| - 1]);
      var r := AppendAll(l, xs);
      assert r[..|l|] == r[..|prev|][..|l|];
    }
  }

  /** Every name offered ends up in the list. */
  lemma {:induction false} AppendAllHas(l: seq<string>, xs: seq<string>)
    ensures forall x :: x in xs ==> x in AppendAll(l, xs)
  {
    if xs != [] {
      AppendAllHas(l, xs[..|xs| - 1]);
      assert xs == xs[..|xs| - 1] + [xs[|xs| - 1]];
    }
  }

  /** Appending two lists of names is appending one, then the other. */
  lemma {:induction false} AppendAllConcat(l: seq<string>, xs: seq<string>, ys: seq<string>)
    ensures AppendAll(l, xs + ys) == AppendAll(AppendAll(l, xs), ys)
    decreases |ys|
  {
    if ys != [] {
      var ys' := ys[..|ys| - 1];
      assert xs + ys != [];
      assert (xs + ys)[..|xs + ys| - 1] == xs + ys';
      assert (xs + ys)[|xs + ys| - 1] == ys[|ys| - 1];
      AppendAllConcat(l, xs, ys');
    } else {
      assert xs + ys == xs;
    }
  }

  /** One part's turn: the part, its singular only when it differs, then its readable form. */
  lemma AppendAllForm(l: seq<string>, f: (string, string, string))
    ensures AppendAll(l, FormList(f)) ==
      var l1 := AppendIfNew(l, f.0);
      AppendIfNew(if f.1 != f.0 then AppendIfNew(l1, f.1) else l1, f.2)
  {
    var xs := FormList(f);
    var l1 := AppendIfNew(l, f.0);
    assert AppendAll(l, [f.0]) == l1 by {
      assert [f.0][..0] == [];
    }
    if f.1 != f.0 {
      assert xs[..2] == [f.0, f.1] && [f.0, f.1][..1] == [f.0];
      assert AppendAll(l, [f.0, f.1]) == AppendIfNew(l1, f.1);
    } else {
      assert xs[..1] == [f.0];
    }
  }

  /** Each of the first `k` parts offers itself and its readable form. */
  lemma {:induction false} FormsListHas(forms: seq<(string, string, string)>, k: nat, j: nat)
    requires j < k <= |forms|
    ensures forms[j].0 in FormsList(forms, k) && forms[j].2 in FormsList(forms, k)
    decreases k
  {
    if j < k - 1 {
      FormsListHas(forms, k - 1, j);
    }
  }

  /** RawCandidates(x) starts with the stripped names and their singulars. */
  lemma RawExtends(name: string)
    ensures var s := StrippedAndSingulars(name); var r := RawCandidates(name);
      |s| <= |r| && r[..|s|] == s
    ensures HumanReadable(name) in RawCandidates(name)
    ensures Contains(name, "_and_") ==>
      forall p :: p in Split(name, "_and_") ==> p in RawCandidates(name) && HumanReadable(p) in RawCandidates(name)
  {
    var s := StrippedAndSingulars(name);
    var c := AppendIfNew(s, HumanReadable(name));
    assert c[..|s|] == s;
    if Contains(name, "_and_") {
      var parts := Split(name, "_and_");
      var forms := PartForms(parts);
      var xs := FormsList(forms, |parts|);
      AppendAllExtends(c, xs);
      AppendAllHas(c, xs);
      var r := AppendAll(c, xs);
      assert r[..|s|] == r[..|c|][..|s|];
      assert HumanReadable(name) in r[..|c|];
      forall p | p in parts ensures p in r && HumanReadable(p) in r {
        var j :| 0 <= j < |parts| && parts[j] == p;
        FormsListHas(forms, |parts|, j);
      }
    }
  }

  /** The candidate list holds exactly the names generated before de-duplication, each once. */
  lemma CandidateMembers(name: string)
    ensures Distinct(CandidateNames(name))
    ensures forall x :: x in CandidateNames(name) <==> x in RawCandidates(name)
  {
    DedupMembers(RawCandidates(name));
  }

  /** The head of the candidate list is the segment name itself. */
  lemma CandidateHead(name: string)
    ensures |CandidateNames(name)| > 0 && CandidateNames(name)[0] == name
  {
    DefaultSuffixesNonEmpty();
    StripQualifiersShape(name, DefaultSuffixes);
    RawExtends(name);
    StrippedPrefix(name);
    var raw := RawCandidates(name);
    assert raw[0] == raw[..|StrippedAndSingulars(name)|][0];
    DedupHead(raw);
  }

  /**
   * Order: the stripped names come first, in stripping order; then the new
   * singular forms; only after those the human-readable and `_and_` forms.
   */
  lemma CandidateOrder(name: string)
    ensures NonEmptySuffixes(DefaultSuffixes)
    ensures var c := CandidateNames(name); var s := StripQualifiers(name, DefaultSuffixes);
      var ss := Dedup(StrippedAndSingulars(name));
      && |s| <= |ss| <= |c| && c[..|s|] == s && c[..|ss|] == ss
      && (forall i :: |s| <= i < |ss| ==> c[i] in Singulars(s, |s|))
      && (forall i :: |ss| <= i < |c| ==> c[i] !in StrippedAndSingulars(name))
  {
    DefaultSuffixesNonEmpty();
    var sas := StrippedAndSingulars(name);
    var s := StripQualifiers(name, DefaultSuffixes);
    StripQualifiersShape(name, DefaultSuffixes);
    RawExtends(name);
    var raw := RawCandidates(name);
    assert raw == s + Singulars(s, |s|) + raw[|sas|..];
    DedupLayers(s, Singulars(s, |s|), raw[|sas|..]);
  }

  /**
   * Deduplicating `s + t + u` with `s` already duplicate-free keeps `s`, then
   * the new elements of `t`, then only elements found in neither `s` nor `t`.
   */
  lemma DedupLayers(s: seq<string>, t: seq<string>, u: seq<string>)
    requires Distinct(s)
    ensures var c := Dedup(s + t + u); var ss := Dedup(s + t);
      && |s| <= |ss| <= |c| && c[..|s|] == s && c[..|ss|] == ss
      && (forall i :: |s| <= i < |ss| ==> c[i] in t)
      && (forall i :: |ss| <= i < |c| ==> c[i] !in s + t)
  {
    DedupAppend(s + t, u);
    DedupAppend(s, t);
    DedupDistinct(s);
    var c := Dedup(s + t + u);
    var ss := Dedup(s + t);
    assert c[..|s|] == ss[..|s|];
    assert forall i :: |s| <= i < |ss| ==> c[i] == ss[i];
  }

  /** The human-readable form of the name, and every `_and_` part with its readable form, are candidates. */
  lemma CandidateForms(name: string)
    ensures HumanReadable(name) in CandidateNames(name)
    ensures Contains(name, "_and_") ==>
      forall p :: p in Split(name, "_and_") ==> p in CandidateNames(name) && HumanReadable(p) in CandidateNames(name)
  {
    RawExtends(name);
    CandidateMembers(name);
  }

  /** Re-normalising the head of the candidate list gives the same head. */
  lemma CandidateHeadIdempotent(name: string)
    ensures |CandidateNames(name)| > 0
    ensures CandidateNames(CandidateNames(name)[0])[0] == CandidateNames(name)[0]
  {
    CandidateHead(name);
    CandidateHead(CandidateNames(name)[0]);
  }

  /** `generate_snomed_candidate_names`: list growing loops and the `seen`-set pass. */
  method GenerateCandidateNames(name: string) returns (finalCandidates: seq<string>)
    ensures finalCandidates == CandidateNames(name)
    ensures |finalCandidates| > 0 && finalCandidates[0] == name && Distinct(finalCandidates)
  {
    DefaultSuffixesNonEmpty();
    var candidates := StripQualifierSuffixes(name, DefaultSuffixes);
    var additional := CollectSingulars(candidates);
    candidates := candidates + additional;
    assert candidates == StrippedAndSingulars(name);

    var formatted := HumanReadable(name);
    if formatted !in candidates {
      candidates := candidates + [formatted];
    }

    if Contains(name, "_and_") {
      var parts := Split(name, "_and_");
      candidates := AppendAndParts(candidates, parts);
    }
    assert candidates == RawCandidates(name);

    finalCandidates := RemoveDuplicates(candidates);
    CandidateHead(name);
    CandidateMembers(name);
  }

  /** The loop collecting singular forms that are new to the list. */
  method CollectSingulars(candidates: seq<string>) returns (additional: seq<string>)
    ensures additional == Singulars(candidates, |candidates|)
    ensures forall x :: x in additional ==> x !in candidates
  {
    additional := [];
    var i := 0;
    while i < |candidates|
      invariant 0 <= i <= |candidates|
      invariant additional == Singulars(candidates, i)
      invariant forall x :: x in additional ==> x !in candidates
    {
      var singular := PluralToSingular(candidates[i]);
      if singular != candidates[i] && singular !in candidates {
        additional := additional + [singular];
      }
      i := i + 1;
    }
  }

  /** The loop over the `_and_` parts: each part, its new singular, its readable form. */
  method AppendAndParts(base: seq<string>, parts: seq<string>) returns (candidates: seq<string>)
    ensures candidates == AppendAll(base, FormsList(PartForms(parts), |parts|))
    ensures |base| <= |candidates| && candidates[..|base|] == base
  {
    candidates := base;
    for k := 0 to |parts|
      invariant candidates == AppendAll(base, FormsList(PartForms(parts), k))
    {
      ghost var prev := candidates;
      var p := parts[k];
      if p !in candidates {
        candidates := candidates + [p];
      }
      var singularP := PluralToSingular(p);
      if singularP != p && singularP !in candidates {
        candidates := candidates + [singularP];
      }
      var formattedP := HumanReadable(p);
      if formattedP !in candidates {
        candidates := candidates + [formattedP];
      }
      AppendAllConcat(base, FormsList(PartForms(parts), k), FormList(PartForms(parts)[k]));
      AppendAllForm(prev, PartForms(parts)[k]);
    }
    AppendAllExtends(base, FormsList(PartForms(parts), |parts|));
  }

  /** The `seen`-set pass: first occurrences only, in order. */
  method RemoveDuplicates(candidates: seq<string>) returns (unique: seq<string>)
    ensures unique == Dedup(candidates)
    ensures Distinct(unique) && forall x :: x in unique <==> x in candidates
  {
    unique := [];
    var seen: set<string> := {};
    for k := 0 to |candidates|
      invariant unique == Dedup(candidates[..k])
      invariant forall x :: x in seen <==> x in unique
    {
      assert candidates[..k + 1][..k] == candidates[..k];
      if candidates[k] !in seen {
        unique := unique + [candidates[k]];
        seen := seen + {candidates[k]};
      }
    }
    assert candidates[..|candidates|] == candidates;
    DedupMembers(candidates);
  }
}
