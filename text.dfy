/**
 * ASCII models of the Python string built-ins the resolution core relies on:
 * `lower`, `capitalize`, `title`, `replace`, `endswith`, `in` (substring),
 * `split(sep)`, `sep.join`, `strip`, `f"{n}"` and `int(s, base)`.
 * Only ASCII letters are cased; every other character is left unchanged.
 */
module Text {

  datatype Option<T> = None | Some(value: T)

  /** No element occurs twice (the keys of a Python dict, a list deduplicated through a `seen` set). */
  predicate Distinct<T(==)>(s: seq<T>) {
    forall i, j :: 0 <= i < j < |s| ==> s[i] != s[j]
  }

  /** Python truthiness of an optional string: present and non-empty. */
  predicate Truthy(s: Option<string>) {
    s.Some? && s.value != ""
  }

  predicate IsUpper(c: char) { 'A' <= c <= 'Z' }
  predicate IsLower(c: char) { 'a' <= c <= 'z' }
  predicate IsLetter(c: char) { IsUpper(c) || IsLower(c) }
  predicate IsDigit(c: char) { '0' <= c <= '9' }

  /** `str.isspace` restricted to ASCII: tab, LF, VT, FF, CR, the four separators 0x1C-0x1F, space. */
  predicate IsSpace(c: char) {
    9 <= c as int <= 13 || 28 <= c as int <= 32
  }

  function ToLower(c: char): char {
    if IsUpper(c) then (c as int + 32) as char else c
  }

  function ToUpper(c: char): char {
    if IsLower(c) then (c as int - 32) as char else c
  }

  /** `s.lower()` */
  function Lower(s: string): string {
    seq(|s|, i requires 0 <= i < |s| => ToLower(s[i]))
  }

  /** `s.capitalize()`: first character upper case, the rest lower case. */
  function Capitalize(s: string): string {
    if s == [] then [] else [ToUpper(s[0])] + Lower(s[1..])
  }

  /** `s.title()`: a letter is upper-cased when it does not follow a letter, lower-cased otherwise. */
  function Title(s: string): string {
    seq(|s|, i requires 0 <= i < |s| =>
      if !IsLetter(s[i]) then s[i]
      else if i == 0 || !IsLetter(s[i - 1]) then ToUpper(s[i])
      else ToLower(s[i]))
  }

  /** `s.replace(a, b)` for single characters. */
  function ReplaceChar(s: string, a: char, b: char): string {
    seq(|s|, i requires 0 <= i < |s| => if s[i] == a then b else s[i])
  }

  predicate StartsWith(s: string, p: string) {
    |p| <= |s| && s[..|p|] == p
  }

  /** `s.endswith(suf)` */
  predicate EndsWith(s: string, suf: string) {
    |suf| <= |s| && s[|s| - |suf|..] == suf
  }

  /** `t in s` for strings: `t` occurs in `s` as a contiguous substring (the empty string occurs everywhere). */
  predicate Contains(s: string, t: string)
    decreases |s|
  {
    StartsWith(s, t) || (|s| > 0 && Contains(s[1..], t))
  }

  /** `s.split(sep)` for a non-empty separator: cut at every leftmost non-overlapping occurrence. */
  function Split(s: string, sep: string): seq<string>
    requires |sep| > 0
  {
    SplitFrom(s, sep, "")
  }

  function SplitFrom(s: string, sep: string, cur: string): (parts: seq<string>)
    requires |sep| > 0
    ensures |parts| > 0
    decreases |s|
  {
    if StartsWith(s, sep) then [cur] + SplitFrom(s[|sep|..], sep, "")
    else if s == [] then [cur]
    else SplitFrom(s[1..], sep, cur + [s[0]])
  }

  /** `sep.join(parts)` */
  function Join(parts: seq<string>, sep: string): string {
    if |parts| == 0 then ""
    else if |parts| == 1 then parts[0]
    else parts[0] + sep + Join(parts[1..], sep)
  }

  lemma {:induction false} JoinCons(p: string, rest: seq<string>, sep: string)
    requires |rest| > 0
    ensures Join([p] + rest, sep) == p + sep + Join(rest, sep)
  {
    assert ([p] + rest)[1..] == rest;
  }

  lemma {:induction false} SplitFromJoin(s: string, sep: string, cur: string)
    requires |sep| > 0
    ensures Join(SplitFrom(s, sep, cur), sep) == cur + s
    decreases |s|
  {
    if StartsWith(s, sep) {
      var rest := SplitFrom(s[|sep|..], sep, "");
      SplitFromJoin(s[|sep|..], sep, "");
      JoinCons(cur, rest, sep);
      assert s == sep + s[|sep|..];
    } else if s == [] {
    } else {
      SplitFromJoin(s[1..], sep, cur + [s[0]]);
      assert cur + [s[0]] + s[1..] == cur + s;
    }
  }

  /** Splitting and joining again with the same separator gives back the input. */
  lemma SplitJoin(s: string, sep: string)
    requires |sep| > 0
    ensures Join(Split(s, sep), sep) == s
  {
    SplitFromJoin(s, sep, "");
  }

  /** `s.strip()` on whitespace. */
  function Strip(s: string): string {
    TrimEnd(TrimStart(s))
  }

  function TrimStart(s: string): string {
    if |s| > 0 && IsSpace(s[0]) then TrimStart(s[1..]) else s
  }

  function TrimEnd(s: string): string {
    if |s| > 0 && IsSpace(s[|s| - 1]) then TrimEnd(s[..|s| - 1]) else s
  }

  /** `s.lstrip(c)` for one character. */
  function TrimStartChar(s: string, c: char): string {
    if |s| > 0 && s[0] == c then TrimStartChar(s[1..], c) else s
  }

  function DigitChar(d: nat): char
    requires d < 10
  {
    ('0' as int + d) as char
  }

  /** The decimal rendering of a natural number, most significant digit first. */
  function NatToString(n: nat): (s: string)
    ensures |s| > 0
    ensures forall i :: 0 <= i < |s| ==> IsDigit(s[i])
  {
    if n < 10 then [DigitChar(n)] else NatToString(n / 10) + [DigitChar(n % 10)]
  }

  /** `f"{n}"` for a Python int. */
  function IntToString(n: int): string {
    if n < 0 then "-" + NatToString(-n) else NatToString(n)
  }

  /** The value of one digit character in base 10 or 16 (either letter case). */
  function DigitValue(c: char, base: nat): Option<nat> {
    if IsDigit(c) then Some(c as int - '0' as int)
    else if base == 16 && 'a' <= c <= 'f' then Some(c as int - 'a' as int + 10)
    else if base == 16 && 'A' <= c <= 'F' then Some(c as int - 'A' as int + 10)
    else None
  }

  predicate IsBaseDigit(c: char, base: nat) {
    DigitValue(c, base).Some?
  }

  /** The digit body `int` accepts: digits, with single underscores allowed between two digits. */
  predicate ValidDigits(b: string, base: nat) {
    && |b| > 0
    && (forall i :: 0 <= i < |b| ==> IsBaseDigit(b[i], base) || b[i] == '_')
    && (forall i :: 0 <= i < |b| && b[i] == '_' ==> 0 < i < |b| - 1 && IsBaseDigit(b[i - 1], base) && IsBaseDigit(b[i + 1], base))
  }

  /** The value of a digit body, underscores ignored. */
  function DigitsValue(b: string, base: nat): nat {
    if b == [] then 0
    else
      var last := b[|b| - 1];
      var rest := DigitsValue(b[..|b| - 1], base);
      match DigitValue(last, base)
      case Some(d) => rest * base + d
      case None => rest
  }

  /**
   * `int(s, base)` for base 10 or 16 on ASCII input: surrounding whitespace,
   * an optional sign, then a digit body. None stands for the ValueError.
   * (The `0x` prefix that base 16 also admits is not modelled.)
   */
  function ParseInteger(s: string, base: nat): Option<int> {
    var t := Strip(s);
    if t == [] then None
    else
      var negative := t[0] == '-';
      var body := if t[0] == '-' || t[0] == '+' then t[1..] else t;
      if !ValidDigits(body, base) then None
      else
        var v: int := DigitsValue(body, base);
        Some(if negative then -v else v)
  }

  lemma {:induction false} NatToStringValue(n: nat)
    ensures ValidDigits(NatToString(n), 10)
    ensures DigitsValue(NatToString(n), 10) == n
  {
    var s := NatToString(n);
    assert forall i :: 0 <= i < |s| ==> IsBaseDigit(s[i], 10);
    if n >= 10 {
      NatToStringValue(n / 10);
      assert s[..|s| - 1] == NatToString(n / 10);
    }
  }

  lemma {:induction false} NoSpaceIsStripped(s: string)
    requires |s| > 0 && !IsSpace(s[0]) && !IsSpace(s[|s| - 1])
    ensures Strip(s) == s
  {
  }

  lemma {:induction false} TrimStartKeeps(s: string, c: char)
    requires c in s && !IsSpace(c)
    ensures c in TrimStart(s)
    decreases |s|
  {
    if |s| > 0 && IsSpace(s[0]) {
      assert c in s[1..] by {
        var i :| 0 <= i < |s| && s[i] == c;
        assert s[1..][i - 1] == c;
      }
      TrimStartKeeps(s[1..], c);
    }
  }

  lemma {:induction false} TrimEndKeeps(s: string, c: char)
    requires c in s && !IsSpace(c)
    ensures c in TrimEnd(s)
    decreases |s|
  {
    if |s| > 0 && IsSpace(s[|s| - 1]) {
      assert c in s[..|s| - 1] by {
        var i :| 0 <= i < |s| && s[i] == c;
        assert s[..|s| - 1][i] == c;
      }
      TrimEndKeeps(s[..|s| - 1], c);
    }
  }

  /** `strip` removes whitespace only: every other character of the string survives it. */
  lemma StripKeeps(s: string, c: char)
    requires c in s && !IsSpace(c)
    ensures c in Strip(s)
  {
    TrimStartKeeps(s, c);
    TrimEndKeeps(TrimStart(s), c);
  }

  /** `int(s)` raises `ValueError` for any string holding an ASCII letter. */
  lemma LetterRejected(s: string, c: char)
    requires c in s && IsLetter(c)
    ensures ParseInteger(s, 10).None?
  {
    StripKeeps(s, c);
    var t := Strip(s);
    var body := if t[0] == '-' || t[0] == '+' then t[1..] else t;
    var i :| 0 <= i < |t| && t[i] == c;
    var j := if t[0] == '-' || t[0] == '+' then i - 1 else i;
    assert 0 <= j < |body| && body[j] == c;
    assert !IsBaseDigit(body[j], 10) && body[j] != '_';
  }

  /** A bare digit body parses to its value. */
  lemma ParseUnsigned(d: string)
    requires ValidDigits(d, 10)
    ensures ParseInteger(d, 10) == Some(DigitsValue(d, 10) as int)
  {
    assert IsBaseDigit(d[0], 10) && IsBaseDigit(d[|d| - 1], 10);
    NoSpaceIsStripped(d);
  }

  /** A digit body behind a minus sign parses to the negated value. */
  lemma ParseNegative(d: string)
    requires ValidDigits(d, 10)
    ensures ParseInteger("-" + d, 10) == Some(-(DigitsValue(d, 10) as int))
  {
    var s := "-" + d;
    assert IsBaseDigit(d[|d| - 1], 10) && s[|s| - 1] == d[|d| - 1];
    NoSpaceIsStripped(s);
    assert s[1..] == d;
  }

  /** The rendering of a natural number parses back. */
  lemma NatRenderingParses(m: nat)
    ensures ParseInteger(IntToString(m), 10) == Some(m as int)
  {
    var d := NatToString(m);
    NatToStringValue(m);
    ParseUnsigned(d);
    assert IntToString(m) == d;
  }

  /** The rendering of a negative number parses back. */
  lemma NegRenderingParses(m: nat)
    requires m > 0
    ensures ParseInteger(IntToString(-(m as int)), 10) == Some(-(m as int))
  {
    var d := NatToString(m);
    NatToStringValue(m);
    ParseNegative(d);
    assert IntToString(-(m as int)) == "-" + d;
  }

  /** `int(f"{n}")` gives back `n`: the rendering and the parser are inverse. */
  lemma IntToStringParses(n: int)
    ensures ParseInteger(IntToString(n), 10) == Some(n)
  {
    if n < 0 {
      NegRenderingParses(-n);
    } else {
      NatRenderingParses(n);
    }
  }
}
