/**
 * The four case conversions of src/Support.php, character by character.
 *
 * Each conversion starts with the same step, `preg_replace('/\B([A-Z])/', '-$1', s)`:
 * a `-` goes before every upper-case ASCII letter that is not at a word
 * boundary, that is, whose preceding character is a word character
 * (ASCII letter, digit or `_`).
 */
module Support {

  predicate IsUpper(c: char) { 'A' <= c <= 'Z' }
  predicate IsLower(c: char) { 'a' <= c <= 'z' }
  predicate IsDigit(c: char) { '0' <= c <= '9' }

  /** PCRE's `\w` without locale: letters, digits and the underscore. */
  predicate IsWordChar(c: char) { IsUpper(c) || IsLower(c) || IsDigit(c) || c == '_' }

  /** PCRE's `\s`, which is also the default delimiter set of `ucwords`. */
  predicate IsSpace(c: char) {
    c == ' ' || c == '\t' || c == '\n' || c == '\r' || c == '\U{000B}' || c == '\U{000C}'
  }

  /** The class `[-_\s]` whose runs the kebab and snake conversions collapse. */
  predicate IsSeparator(c: char) { c == '-' || c == '_' || IsSpace(c) }

  function ToLower(c: char): char { if IsUpper(c) then (c as int + 32) as char else c }
  function ToUpper(c: char): char { if IsLower(c) then (c as int - 32) as char else c }

  /** `preg_replace('/\B([A-Z])/', '-$1', s)`. */
  function MarkBoundaries(s: string): string {
    if |s| <= 1 then s
    else [s[0]] + (if IsWordChar(s[0]) && IsUpper(s[1]) then "-" else "") + MarkBoundaries(s[1..])
  }

  /** `strtolower(s)` on ASCII. */
  function Lower(s: string): (r: string)
    ensures |r| == |s| && forall i :: 0 <= i < |s| ==> r[i] == ToLower(s[i])
  {
    if s == [] then [] else [ToLower(s[0])] + Lower(s[1..])
  }

  /** Drops the separators at the front of s. */
  function DropSeparators(s: string): (r: string)
    ensures |r| <= |s|
    ensures r == [] || !IsSeparator(r[0])
  {
    if s != [] && IsSeparator(s[0]) then DropSeparators(s[1..]) else s
  }

  /** `preg_replace('/[-_\s]+/', sep, s)`: every maximal run of separators becomes one sep. */
  function Collapse(s: string, sep: char): string
    decreases |s|
  {
    if s == [] then []
    else if IsSeparator(s[0]) then [sep] + Collapse(DropSeparators(s[1..]), sep)
    else [s[0]] + Collapse(s[1..], sep)
  }

  /** `str_replace(['-', '_'], ' ', s)`. */
  function DashesToSpaces(s: string): (r: string)
    ensures |r| == |s|
    ensures forall i :: 0 <= i < |s| ==> r[i] == if s[i] == '-' || s[i] == '_' then ' ' else s[i]
  {
    if s == [] then [] else [if s[0] == '-' || s[0] == '_' then ' ' else s[0]] + DashesToSpaces(s[1..])
  }

  /** `ucwords(s)`: the first character and every character after a delimiter are upper-cased. */
  function UcWords(s: string): string {
    UcWordsFrom(s, true)
  }

  function UcWordsFrom(s: string, atWordStart: bool): (r: string)
    ensures |r| == |s|
    ensures forall i :: 0 <= i < |s| ==> r[i] == s[i] || r[i] == ToUpper(s[i])
  {
    if s == [] then []
    else [if atWordStart then ToUpper(s[0]) else s[0]] + UcWordsFrom(s[1..], IsSpace(s[0]))
  }

  /** `str_replace(' ', '', s)`. */
  function RemoveSpaces(s: string): (r: string)
    ensures forall i :: 0 <= i < |r| ==> r[i] != ' '
    ensures forall i :: 0 <= i < |r| ==> r[i] in s
  {
    if s == [] then [] else (if s[0] == ' ' then "" else [s[0]]) + RemoveSpaces(s[1..])
  }

  /** `lcfirst(s)`. */
  function LcFirst(s: string): (r: string)
    ensures |r| == |s|
    ensures forall i :: 0 < i < |s| ==> r[i] == s[i]
  {
    if s == [] then [] else [ToLower(s[0])] + s[1..]
  }

  function KebabCase(s: string): string {
    Collapse(Lower(MarkBoundaries(s)), '-')
  }

  function SnakeCase(s: string): string {
    Collapse(Lower(MarkBoundaries(s)), '_')
  }

  function PascalCase(s: string): string {
    RemoveSpaces(UcWords(DashesToSpaces(MarkBoundaries(s))))
  }

  /** The camelCase pipeline is the PascalCase pipeline under `lcfirst`. */
  function CamelCase(s: string): string {
    LcFirst(PascalCase(s))
  }

  /** Output shape of the kebab and snake conversions with separator sep. */
  predicate SeparatedLowerCase(r: string, sep: char) {
    && (forall i :: 0 <= i < |r| ==> !IsUpper(r[i]))
    && (forall i :: 0 <= i < |r| ==> r[i] == sep || !IsSeparator(r[i]))
    && (forall i :: 0 <= i < |r| - 1 ==> !(r[i] == sep && r[i + 1] == sep))
  }

  function ReplaceChar(s: string, from: char, to: char): (r: string)
    ensures |r| == |s|
    ensures forall i :: 0 <= i < |s| ==> r[i] == if s[i] == from then to else s[i]
  {
    if s == [] then [] else [if s[0] == from then to else s[0]] + ReplaceChar(s[1..], from, to)
  }

  // ---------------------------------------------------------------------------
  // The boundary rule, stated index by index

  /** What the boundary step emits for position i of s: maybe a `-`, then s[i]. */
  function EmittedAt(s: string, i: nat): string
    requires i < |s|
  {
    (if 0 < i && IsWordChar(s[i - 1]) && IsUpper(s[i]) then "-" else "") + [s[i]]
  }

  /** The concatenation of EmittedAt(s, i) for i from `from` to the end. */
  function EmittedFrom(s: string, from: nat): string
    requires from <= |s|
    decreases |s| - from
  {
    if from == |s| then "" else EmittedAt(s, from) + EmittedFrom(s, from + 1)
  }

  lemma {:induction false} EmittedFromShift(s: string, from: nat)
    requires 2 <= from <= |s|
    ensures EmittedFrom(s, from) == EmittedFrom(s[1..], from - 1)
    decreases |s| - from
  {
    if from < |s| {
      EmittedFromShift(s, from + 1);
      assert s[1..][from - 2] == s[from - 1];
    }
  }

  /** The first two positions of EmittedFrom(s, 0), written out. */
  lemma EmittedFromFirstTwo(s: string)
    requires |s| >= 2
    ensures EmittedFrom(s, 0) == EmittedAt(s, 0) + (EmittedAt(s, 1) + EmittedFrom(s, 2))
  {
  }

  lemma EmittedFromOfTail(s: string)
    requires |s| >= 2
    ensures EmittedFrom(s[1..], 0) == [s[1]] + EmittedFrom(s, 2)
  {
    EmittedFromShift(s, 2);
    assert EmittedAt(s[1..], 0) == [s[1]];
  }

  /**
   * A `-` is inserted exactly before each upper-case letter whose preceding
   * character is a letter, a digit or `_`; nothing else changes.
   */
  lemma {:induction false} MarkBoundariesRule(s: string)
    ensures MarkBoundaries(s) == EmittedFrom(s, 0)
  {
    if |s| == 1 {
      assert EmittedFrom(s, 0) == EmittedAt(s, 0) + EmittedFrom(s, 1);
    } else if |s| > 1 {
      var t := s[1..];
      var dash := if IsWordChar(s[0]) && IsUpper(s[1]) then "-" else "";
      calc {
        MarkBoundaries(s);
        [s[0]] + dash + MarkBoundaries(t);
        { MarkBoundariesRule(t); }
        [s[0]] + dash + EmittedFrom(t, 0);
        { EmittedFromOfTail(s); }
        [s[0]] + dash + ([s[1]] + EmittedFrom(s, 2));
        { assert EmittedAt(s, 1) == dash + [s[1]]; assert EmittedAt(s, 0) == [s[0]]; }
        EmittedAt(s, 0) + (EmittedAt(s, 1) + EmittedFrom(s, 2));
        { EmittedFromFirstTwo(s); }
        EmittedFrom(s, 0);
      }
    }
  }

  // ---------------------------------------------------------------------------
  // Shape of the kebab and snake outputs

  lemma {:induction false} LowerHasNoUpper(s: string)
    ensures forall i :: 0 <= i < |Lower(s)| ==> !IsUpper(Lower(s)[i])
  {
  }

  lemma {:induction false} CollapseShape(t: string, sep: char)
    requires sep == '-' || sep == '_'
    requires forall i :: 0 <= i < |t| ==> !IsUpper(t[i])
    ensures SeparatedLowerCase(Collapse(t, sep), sep)
    ensures Collapse(t, sep) != [] && t != [] ==> (Collapse(t, sep)[0] == sep <==> IsSeparator(t[0]))
    decreases |t|
  {
    if t == [] {
    } else if IsSeparator(t[0]) {
      var d := DropSeparators(t[1..]);
      DropSeparatorsSuffix(t[1..]);
      CollapseShape(d, sep);
      var r := Collapse(t, sep);
      assert r == [sep] + Collapse(d, sep);
      if d != [] {
        assert Collapse(d, sep)[0] != sep;
      } else {
        assert Collapse(d, sep) == [];
      }
    } else {
      CollapseShape(t[1..], sep);
      var r := Collapse(t, sep);
      assert r == [t[0]] + Collapse(t[1..], sep);
    }
  }

  lemma {:induction false} DropSeparatorsSuffix(s: string)
    ensures forall i :: 0 <= i < |DropSeparators(s)| ==> DropSeparators(s)[i] in s
  {
    if s != [] && IsSeparator(s[0]) {
      DropSeparatorsSuffix(s[1..]);
    }
  }

  /** kebab-case output: lower case, no `_`, no whitespace, never `--`. */
  lemma KebabCaseShape(s: string)
    ensures var r := KebabCase(s);
      && (forall i :: 0 <= i < |r| ==> !IsUpper(r[i]) && r[i] != '_' && !IsSpace(r[i]))
      && (forall i :: 0 <= i < |r| - 1 ==> !(r[i] == '-' && r[i + 1] == '-'))
  {
    LowerHasNoUpper(MarkBoundaries(s));
    CollapseShape(Lower(MarkBoundaries(s)), '-');
  }

  /** snake_case output: lower case, no `-`, no whitespace, never `__`. */
  lemma SnakeCaseShape(s: string)
    ensures var r := SnakeCase(s);
      && (forall i :: 0 <= i < |r| ==> !IsUpper(r[i]) && r[i] != '-' && !IsSpace(r[i]))
      && (forall i :: 0 <= i < |r| - 1 ==> !(r[i] == '_' && r[i + 1] == '_'))
  {
    LowerHasNoUpper(MarkBoundaries(s));
    CollapseShape(Lower(MarkBoundaries(s)), '_');
  }

  // ---------------------------------------------------------------------------
  // Idempotence

  lemma {:induction false} MarkBoundariesWithoutUpper(s: string)
    requires forall i :: 0 <= i < |s| ==> !IsUpper(s[i])
    ensures MarkBoundaries(s) == s
  {
    if |s| > 1 {
      MarkBoundariesWithoutUpper(s[1..]);
    }
  }

  lemma {:induction false} LowerWithoutUpper(s: string)
    requires forall i :: 0 <= i < |s| ==> !IsUpper(s[i])
    ensures Lower(s) == s
  {
  }

  lemma {:induction false} CollapseFixpoint(r: string, sep: char)
    requires sep == '-' || sep == '_'
    requires SeparatedLowerCase(r, sep)
    ensures Collapse(r, sep) == r
    decreases |r|
  {
    if r != [] {
      assert SeparatedLowerCase(r[1..], sep) by {
        assert forall i :: 0 <= i < |r[1..]| ==> r[1..][i] == r[i + 1];
      }
      if IsSeparator(r[0]) {
        assert r[0] == sep;
        assert DropSeparators(r[1..]) == r[1..] by {
          if r[1..] != [] { assert r[1] != sep; }
        }
      }
      CollapseFixpoint(r[1..], sep);
    }
  }

  lemma SeparatedFixpoint(r: string, sep: char)
    requires sep == '-' || sep == '_'
    requires SeparatedLowerCase(r, sep)
    ensures Collapse(Lower(MarkBoundaries(r)), sep) == r
  {
    MarkBoundariesWithoutUpper(r);
    LowerWithoutUpper(r);
    CollapseFixpoint(r, sep);
  }

  /** kebabCase(kebabCase(s)) == kebabCase(s). */
  lemma KebabCaseIdempotent(s: string)
    ensures KebabCase(KebabCase(s)) == KebabCase(s)
  {
    LowerHasNoUpper(MarkBoundaries(s));
    CollapseShape(Lower(MarkBoundaries(s)), '-');
    SeparatedFixpoint(KebabCase(s), '-');
  }

  /** snakeCase(snakeCase(s)) == snakeCase(s). */
  lemma SnakeCaseIdempotent(s: string)
    ensures SnakeCase(SnakeCase(s)) == SnakeCase(s)
  {
    LowerHasNoUpper(MarkBoundaries(s));
    CollapseShape(Lower(MarkBoundaries(s)), '_');
    SeparatedFixpoint(SnakeCase(s), '_');
  }

  // ---------------------------------------------------------------------------
  // snake_case is kebab-case with the other separator

  lemma {:induction false} CollapseSeparatorSwap(t: string)
    ensures Collapse(t, '_') == ReplaceChar(Collapse(t, '-'), '-', '_')
    decreases |t|
  {
    if t == [] {
    } else if IsSeparator(t[0]) {
      var d := DropSeparators(t[1..]);
      CollapseSeparatorSwap(d);
      ReplaceCharConcat("-", Collapse(d, '-'), '-', '_');
    } else {
      CollapseSeparatorSwap(t[1..]);
      ReplaceCharConcat([t[0]], Collapse(t[1..], '-'), '-', '_');
    }
  }

  lemma ReplaceCharConcat(a: string, b: string, from: char, to: char)
    ensures ReplaceChar(a + b, from, to) == ReplaceChar(a, from, to) + ReplaceChar(b, from, to)
  {
  }

  /** snakeCase(s) is kebabCase(s) with every `-` replaced by `_`. */
  lemma SnakeCaseIsKebabCaseWithUnderscores(s: string)
    ensures SnakeCase(s) == ReplaceChar(KebabCase(s), '-', '_')
  {
    CollapseSeparatorSwap(Lower(MarkBoundaries(s)));
  }

  // ---------------------------------------------------------------------------
  // camelCase and PascalCase

  lemma {:induction false} WordsWithoutSeparators(s: string)
    ensures var r := PascalCase(s);
      forall i :: 0 <= i < |r| ==> r[i] != '-' && r[i] != '_' && r[i] != ' '
  {
    var d := DashesToSpaces(MarkBoundaries(s));
    var u := UcWords(d);
    assert forall i :: 0 <= i < |u| ==> u[i] != '-' && u[i] != '_';
  }

  /** pascalCase output has no `-`, `_` or space. */
  lemma PascalCaseShape(s: string)
    ensures var r := PascalCase(s);
      forall i :: 0 <= i < |r| ==> r[i] != '-' && r[i] != '_' && r[i] != ' '
  {
    WordsWithoutSeparators(s);
  }

  /** camelCase output has no `-`, `_` or space. */
  lemma CamelCaseShape(s: string)
    ensures var r := CamelCase(s);
      forall i :: 0 <= i < |r| ==> r[i] != '-' && r[i] != '_' && r[i] != ' '
  {
    WordsWithoutSeparators(s);
  }

  // ---------------------------------------------------------------------------
  // Concrete cases from the conversion tests

  lemma EmptyStaysEmpty()
    ensures KebabCase("") == "" && SnakeCase("") == "" && CamelCase("") == "" && PascalCase("") == ""
  {
  }

  /**
   * kebabCase(camelCase(x)) is not always kebabCase(x): a digit between
   * separators, or a trailing separator, is lost by camelCase.
   */
  lemma KebabOfCamelCaseDiffers()
    ensures KebabCase(CamelCase("-")) == "" && KebabCase("-") == "-"
  {
  }
}
