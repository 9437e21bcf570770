// The one-line signature parser: `CommandParser::parse` and its token
// predicates `isName`, `isArgument`, `isFlag`, `isOption` and `isGeneric`.

module CommandParser {
  import opened Wrappers
  import opened Support
  import opened Parameters
  import opened Commands

  // ---------------------------------------------------------------------------
  // Tokens: `array_filter(preg_split('/\s+/', $command))`

  /** What `array_filter` keeps of one piece: everything but "" and "0". */
  function Keep(w: string): seq<string> {
    if w == "" || w == "0" then [] else [w]
  }

  /** A piece that survives splitting and filtering. */
  predicate IsToken(t: string) {
    t != "" && t != "0" && forall i :: 0 <= i < |t| ==> !IsSpace(t[i])
  }

  /** Splits `s` at every whitespace character; `cur` is the piece read so far. */
  function TokensFrom(s: string, cur: string): (r: seq<string>)
    requires forall i :: 0 <= i < |cur| ==> !IsSpace(cur[i])
    ensures forall k :: 0 <= k < |r| ==> IsToken(r[k])
    decreases |s|
  {
    if s == [] then Keep(cur)
    else if IsSpace(s[0]) then Keep(cur) + TokensFrom(s[1..], "")
    else TokensFrom(s[1..], cur + [s[0]])
  }

  function Tokens(s: string): (r: seq<string>)
    ensures forall k :: 0 <= k < |r| ==> IsToken(r[k])
  {
    TokensFrom(s, "")
  }

  lemma {:induction false} TokensFromWord(w: string, rest: string, cur: string)
    requires forall i :: 0 <= i < |w| ==> !IsSpace(w[i])
    requires forall i :: 0 <= i < |cur| ==> !IsSpace(cur[i])
    ensures TokensFrom(w + rest, cur) == TokensFrom(rest, cur + w)
    decreases |w|
  {
    if w == [] {
      assert w + rest == rest;
      assert cur + w == cur;
    } else {
      assert (w + rest)[0] == w[0];
      assert (w + rest)[1..] == w[1..] + rest;
      TokensFromWord(w[1..], rest, cur + [w[0]]);
      assert cur + [w[0]] + w[1..] == cur + w;
    }
  }

  /** Splitting the space-joined tokens gives the tokens back. */
  lemma {:induction false} TokensOfJoinWords(ts: seq<string>)
    requires ts != []
    requires forall k :: 0 <= k < |ts| ==> IsToken(ts[k])
    ensures Tokens(JoinWords(ts)) == ts
    decreases |ts|
  {
    if |ts| == 1 {
      TokensFromWord(ts[0], "", "");
      assert ts[0] + "" == ts[0];
    } else {
      var rest := JoinWords(ts[1..]);
      assert ts[0] + " " + rest == ts[0] + (" " + rest);
      TokensFromWord(ts[0], " " + rest, "");
      assert "" + ts[0] == ts[0];
      assert (" " + rest)[1..] == rest;
      TokensOfJoinWords(ts[1..]);
    }
  }

  /** An all-whitespace string has no tokens. */
  lemma {:induction false} BlankHasNoTokens(s: string, cur: string)
    requires forall i :: 0 <= i < |s| ==> IsSpace(s[i])
    requires cur == "" || cur == "0"
    ensures TokensFrom(s, cur) == []
    decreases |s|
  {
    if s != [] {
      BlankHasNoTokens(s[1..], "");
    }
  }

  // ---------------------------------------------------------------------------
  // Token shapes

  /**
   * `isName`: at least two characters, not starting with `<`, `[`, `-` or
   * whitespace, not ending in `>`, `]`, `.` or `}`. The parser only applies
   * it to tokens, which hold no whitespace, so `.` and `$` need no care.
   */
  predicate IsName(t: string) {
    && |t| >= 2
    && t[0] != '<' && t[0] != '[' && t[0] != '-' && !IsSpace(t[0])
    && t[|t| - 1] != '>' && t[|t| - 1] != ']' && t[|t| - 1] != '.' && t[|t| - 1] != '}'
  }

  /** `[<charset>]+`. */
  predicate NonEmptyIn(s: string, cs: NameCharset) {
    s != [] && forall i :: 0 <= i < |s| ==> InCharset(s[i], cs)
  }

  /** A recognized parameter token, with what the regex captures of it. */
  datatype Token =
    | ArgumentToken(name: string, optional: bool, repeating: bool)
    | FlagToken(name: string)
    | OptionToken(name: string, optional: bool, valueIsOptional: bool, valueName: string)
    | GenericToken
    | Other

  /** The names a token carries are in the charsets its regex allows. */
  predicate WellFormedToken(tok: Token) {
    match tok
    case ArgumentToken(n, _, _) => NonEmptyIn(n, MixedCase)
    case FlagToken(n) => NonEmptyIn(n, LowerCase)
    case OptionToken(n, _, _, v) => NonEmptyIn(n, LowerCase) && NonEmptyIn(v, MixedCase)
    case GenericToken => true
    case Other => false
  }

  /** The one spelling of each token shape. */
  function Render(tok: Token): string
    requires tok != Other
  {
    match tok
    case ArgumentToken(n, optional, repeating) =>
      Bracketed(optional, AngledName(n) + Dots(repeating))
    case FlagToken(n) => "[--" + n + "]"
    case OptionToken(n, optional, valueIsOptional, v) =>
      Bracketed(optional, "--" + n + Bracketed(valueIsOptional, "=" + AngledName(v)))
    case GenericToken => GenericSignature
  }

  function Bracketed(b: bool, s: string): string {
    if b then "[" + s + "]" else s
  }

  function AngledName(n: string): string {
    "<" + n + ">"
  }

  function Dots(b: bool): string {
    if b then "..." else ""
  }

  const GenericSignature := "[--<field>=<value>]"

  /** Ends in exactly `...`. */
  predicate EndsWithDots(s: string) {
    |s| >= 3 && s[|s| - 3] == '.' && s[|s| - 2] == '.' && s[|s| - 1] == '.'
  }

  /** Strips one pair of enclosing brackets, and says whether there was one. */
  function Unbracket(t: string): Option<(bool, string)> {
    if |t| > 0 && t[0] == '[' then
      if |t| >= 2 && t[|t| - 1] == ']' then Some((true, t[1..|t| - 1])) else None
    else Some((false, t))
  }

  /** `<name>` with the name in `cs`, or nothing. */
  function Angled(t: string, cs: NameCharset): (r: Option<string>)
    ensures r.Some? ==> NonEmptyIn(r.value, cs)
  {
    if |t| >= 3 && t[0] == '<' && t[|t| - 1] == '>' && NonEmptyIn(t[1..|t| - 1], cs)
    then Some(t[1..|t| - 1]) else None
  }

  /** `isArgument`: `/^(\[)?<[a-zA-Z\-_0-9]+>(?:\.{3})?(?(1)\])$/`. */
  function MatchArgument(t: string): (r: Option<Token>)
    ensures r.Some? ==> r.value.ArgumentToken? && WellFormedToken(r.value)
  {
    match Unbracket(t)
    case None => None
    case Some((optional, inner)) =>
      var repeating := EndsWithDots(inner);
      var core := if repeating then inner[..|inner| - 3] else inner;
      match Angled(core, MixedCase)
      case None => None
      case Some(n) => Some(ArgumentToken(n, optional, repeating))
  }

  /** `isFlag`: `/^\[--[a-z\-_0-9]+\]$/`. */
  function MatchFlag(t: string): (r: Option<Token>)
    ensures r.Some? ==> r.value.FlagToken? && WellFormedToken(r.value)
  {
    if |t| >= 5 && t[0] == '[' && t[1] == '-' && t[2] == '-' && t[|t| - 1] == ']'
       && NonEmptyIn(t[3..|t| - 1], LowerCase)
    then Some(FlagToken(t[3..|t| - 1])) else None
  }

  /** The length of the longest prefix of `s` inside `cs`. */
  function RunLength(s: string, cs: NameCharset): (n: nat)
    ensures n <= |s|
    ensures forall i :: 0 <= i < n ==> InCharset(s[i], cs)
    ensures n < |s| ==> !InCharset(s[n], cs)
    decreases |s|
  {
    if s != [] && InCharset(s[0], cs) then 1 + RunLength(s[1..], cs) else 0
  }

  /**
   * `isOption`: `/^(\[)?--[a-z\-_0-9]+(\[)?=<[a-zA-Z\-_0-9]+>(?(2)\])(?(1)\])$/`.
   * The name class holds neither `[` nor `=`, so the name is the longest run.
   */
  function MatchOption(t: string): (r: Option<Token>)
    ensures r.Some? ==> r.value.OptionToken? && WellFormedToken(r.value)
  {
    match Unbracket(t)
    case None => None
    case Some((optional, body)) =>
      match MatchOptionBody(body)
      case None => None
      case Some((n, valueIsOptional, v)) => Some(OptionToken(n, optional, valueIsOptional, v))
  }

  /** `--<name>` followed by the value part. */
  function MatchOptionBody(body: string): (r: Option<(string, bool, string)>)
    ensures r.Some? ==> NonEmptyIn(r.value.0, LowerCase) && NonEmptyIn(r.value.2, MixedCase)
  {
    if |body| < 2 || body[0] != '-' || body[1] != '-' then None
    else
      var k := RunLength(body[2..], LowerCase);
      if k == 0 then None
      else
        match MatchOptionValue(body[2 + k..])
        case None => None
        case Some((valueIsOptional, v)) => Some((body[2..2 + k], valueIsOptional, v))
  }

  /** `=<value>`, or `[=<value>]` for an optional value. */
  function MatchOptionValue(rest: string): (r: Option<(bool, string)>)
    ensures r.Some? ==> NonEmptyIn(r.value.1, MixedCase)
  {
    match Unbracket(rest)
    case None => None
    case Some((valueIsOptional, value)) =>
      if |value| >= 1 && value[0] == '=' then
        match Angled(value[1..], MixedCase)
        case None => None
        case Some(v) => Some((valueIsOptional, v))
      else None
  }

  /** The token classes in the order `parse` tries them. */
  function Classify(t: string): (tok: Token)
    ensures tok != Other ==> WellFormedToken(tok)
  {
    if MatchArgument(t).Some? then MatchArgument(t).value
    else if MatchFlag(t).Some? then MatchFlag(t).value
    else if MatchOption(t).Some? then MatchOption(t).value
    else if t == GenericSignature then GenericToken
    else Other
  }

  // ---------------------------------------------------------------------------
  // What each regex accepts, exactly

  lemma UnbracketIff(t: string, b: bool, inner: string)
    ensures Unbracket(t) == Some((b, inner)) <==>
      t == Bracketed(b, inner) && (!b ==> inner == [] || inner[0] != '[')
  {
    if b && t == Bracketed(b, inner) {
      assert t[1..|t| - 1] == inner;
    }
  }

  lemma AngledIff(t: string, cs: NameCharset, n: string)
    ensures Angled(t, cs) == Some(n) <==> NonEmptyIn(n, cs) && t == AngledName(n)
  {
    if t == AngledName(n) {
      assert t[1..|t| - 1] == n;
    }
    if Angled(t, cs) == Some(n) {
      assert t == [t[0]] + t[1..|t| - 1] + [t[|t| - 1]];
    }
  }

  lemma DotsSplit(core: string, repeating: bool)
    requires |core| > 0 && core[|core| - 1] == '>'
    ensures var inner := core + Dots(repeating);
      && EndsWithDots(inner) == repeating
      && (repeating ==> inner[..|inner| - 3] == core)
  {
    var inner := core + Dots(repeating);
    if repeating {
      assert inner[..|inner| - 3] == core;
    } else {
      assert inner == core;
      assert inner[|inner| - 1] == '>';
    }
  }

  lemma UndotInner(inner: string, repeating: bool)
    requires EndsWithDots(inner) == repeating
    ensures inner == (if repeating then inner[..|inner| - 3] else inner) + Dots(repeating)
  {
    if repeating {
      assert inner == inner[..|inner| - 3] + inner[|inner| - 3..];
      assert inner[|inner| - 3..] == Dots(repeating);
    }
  }

  lemma RenderedArgumentMatches(n: string, optional: bool, repeating: bool)
    requires NonEmptyIn(n, MixedCase)
    ensures MatchArgument(Render(ArgumentToken(n, optional, repeating))) == Some(ArgumentToken(n, optional, repeating))
  {
    var core := AngledName(n);
    var inner := core + Dots(repeating);
    var t := Render(ArgumentToken(n, optional, repeating));
    assert inner[0] == '<';
    assert t == Bracketed(optional, inner);
    UnbracketIff(t, optional, inner);
    assert Unbracket(t) == Some((optional, inner));
    DotsSplit(core, repeating);
    assert EndsWithDots(inner) == repeating;
    assert (if repeating then inner[..|inner| - 3] else inner) == core;
    AngledIff(core, MixedCase, n);
    assert Angled(core, MixedCase) == Some(n);
  }

  lemma MatchedArgumentRenders(t: string, n: string, optional: bool, repeating: bool)
    requires MatchArgument(t) == Some(ArgumentToken(n, optional, repeating))
    ensures NonEmptyIn(n, MixedCase) && t == Render(ArgumentToken(n, optional, repeating))
  {
    var inner := Unbracket(t).value.1;
    assert Unbracket(t) == Some((optional, inner));
    UnbracketIff(t, optional, inner);
    assert EndsWithDots(inner) == repeating;
    var core := if repeating then inner[..|inner| - 3] else inner;
    assert Angled(core, MixedCase) == Some(n);
    AngledIff(core, MixedCase, n);
    UndotInner(inner, repeating);
  }

  /** `isArgument` holds exactly of the rendered argument tokens. */
  lemma ArgumentIff(t: string, n: string, optional: bool, repeating: bool)
    ensures MatchArgument(t) == Some(ArgumentToken(n, optional, repeating)) <==>
      NonEmptyIn(n, MixedCase) && t == Render(ArgumentToken(n, optional, repeating))
  {
    if MatchArgument(t) == Some(ArgumentToken(n, optional, repeating)) {
      MatchedArgumentRenders(t, n, optional, repeating);
    }
    if NonEmptyIn(n, MixedCase) && t == Render(ArgumentToken(n, optional, repeating)) {
      RenderedArgumentMatches(n, optional, repeating);
    }
  }

  /** `isFlag` holds exactly of the rendered flag tokens. */
  lemma FlagIff(t: string, n: string)
    ensures MatchFlag(t) == Some(FlagToken(n)) <==>
      NonEmptyIn(n, LowerCase) && t == Render(FlagToken(n))
  {
    if t == Render(FlagToken(n)) {
      assert t[3..|t| - 1] == n;
    }
    if MatchFlag(t) == Some(FlagToken(n)) {
      assert t[..3] == "[--";
      assert t == t[..3] + t[3..|t| - 1] + [t[|t| - 1]];
    }
  }

  lemma RunLengthOfPrefix(n: string, rest: string, cs: NameCharset)
    requires forall i :: 0 <= i < |n| ==> InCharset(n[i], cs)
    requires rest == [] || !InCharset(rest[0], cs)
    ensures RunLength(n + rest, cs) == |n|
  {
    var r := RunLength(n + rest, cs);
    assert forall i :: 0 <= i < |n| ==> (n + rest)[i] == n[i];
    assert |rest| > 0 ==> (n + rest)[|n|] == rest[0];
  }

  lemma OptionValueIff(rest: string, valueIsOptional: bool, v: string)
    ensures MatchOptionValue(rest) == Some((valueIsOptional, v)) <==>
      NonEmptyIn(v, MixedCase) && rest == Bracketed(valueIsOptional, "=" + AngledName(v))
  {
    var value := "=" + AngledName(v);
    if MatchOptionValue(rest) == Some((valueIsOptional, v)) {
      var value' := Unbracket(rest).value.1;
      UnbracketIff(rest, valueIsOptional, value');
      AngledIff(value'[1..], MixedCase, v);
      assert value' == [value'[0]] + value'[1..];
    }
    if NonEmptyIn(v, MixedCase) && rest == Bracketed(valueIsOptional, value) {
      UnbracketIff(rest, valueIsOptional, value);
      assert value[1..] == AngledName(v);
      AngledIff(value[1..], MixedCase, v);
    }
  }

  lemma MatchedOptionBody(body: string, n: string, valueIsOptional: bool, v: string)
    requires MatchOptionBody(body) == Some((n, valueIsOptional, v))
    ensures body == "--" + n + Bracketed(valueIsOptional, "=" + AngledName(v))
  {
    var k := RunLength(body[2..], LowerCase);
    var head, name, rest := body[..2], body[2..2 + k], body[2 + k..];
    assert name == n;
    OptionValueIff(rest, valueIsOptional, v);
    assert head == "--";
    SplitThree(body, 2, 2 + k);
  }

  lemma SplitThree<T>(s: seq<T>, i: nat, j: nat)
    requires i <= j <= |s|
    ensures s == s[..i] + s[i..j] + s[j..]
  {
  }

  lemma RenderedOptionBody(n: string, valueIsOptional: bool, v: string)
    requires NonEmptyIn(n, LowerCase) && NonEmptyIn(v, MixedCase)
    ensures MatchOptionBody("--" + n + Bracketed(valueIsOptional, "=" + AngledName(v))) == Some((n, valueIsOptional, v))
  {
    var rest := Bracketed(valueIsOptional, "=" + AngledName(v));
    var body := "--" + n + rest;
    assert body[2..] == n + rest;
    RunLengthOfPrefix(n, rest, LowerCase);
    assert body[2..2 + |n|] == n && body[2 + |n|..] == rest;
    OptionValueIff(rest, valueIsOptional, v);
  }

  lemma OptionBodyIff(body: string, n: string, valueIsOptional: bool, v: string)
    ensures MatchOptionBody(body) == Some((n, valueIsOptional, v)) <==>
      && NonEmptyIn(n, LowerCase) && NonEmptyIn(v, MixedCase)
      && body == "--" + n + Bracketed(valueIsOptional, "=" + AngledName(v))
  {
    if MatchOptionBody(body) == Some((n, valueIsOptional, v)) {
      MatchedOptionBody(body, n, valueIsOptional, v);
    }
    if NonEmptyIn(n, LowerCase) && NonEmptyIn(v, MixedCase) && body == "--" + n + Bracketed(valueIsOptional, "=" + AngledName(v)) {
      RenderedOptionBody(n, valueIsOptional, v);
    }
  }

  /** `isOption` holds exactly of the rendered option tokens. */
  lemma OptionIff(t: string, n: string, optional: bool, valueIsOptional: bool, v: string)
    ensures MatchOption(t) == Some(OptionToken(n, optional, valueIsOptional, v)) <==>
      && NonEmptyIn(n, LowerCase) && NonEmptyIn(v, MixedCase)
      && t == Render(OptionToken(n, optional, valueIsOptional, v))
  {
    var body := "--" + n + Bracketed(valueIsOptional, "=" + AngledName(v));
    OptionBodyIff(body, n, valueIsOptional, v);
    if MatchOption(t) == Some(OptionToken(n, optional, valueIsOptional, v)) {
      var body' := Unbracket(t).value.1;
      UnbracketIff(t, optional, body');
      OptionBodyIff(body', n, valueIsOptional, v);
    }
    if && NonEmptyIn(n, LowerCase) && NonEmptyIn(v, MixedCase)
       && t == Render(OptionToken(n, optional, valueIsOptional, v))
    {
      UnbracketIff(t, optional, body);
    }
  }

  // ---------------------------------------------------------------------------
  // Classification

  /** Every accepted token begins with `[`, `<` or `-`. */
  lemma MatchedStart(t: string)
    requires Classify(t) != Other
    ensures |t| > 0 && (t[0] == '[' || t[0] == '<' || t[0] == '-')
    ensures t[0] == '[' ==> |t| > 1 && (t[1] == '<' || t[1] == '-')
  {
    var tok := Classify(t);
    match tok
    case ArgumentToken(n, o, r) => MatchedArgumentRenders(t, n, o, r);
    case FlagToken(n) => FlagIff(t, n);
    case OptionToken(n, o, vo, v) => MatchedOptionRenders(t, n, o, vo, v);
    case GenericToken =>
  }

  lemma MatchedOptionRenders(t: string, n: string, optional: bool, valueIsOptional: bool, v: string)
    requires MatchOption(t) == Some(OptionToken(n, optional, valueIsOptional, v))
    ensures t == Render(OptionToken(n, optional, valueIsOptional, v))
  {
    OptionIff(t, n, optional, valueIsOptional, v);
  }

  /** A name-like token is never a parameter, so it cannot follow one. */
  lemma NameIsNoParameter(t: string)
    requires IsName(t)
    ensures Classify(t) == Other
  {
    if Classify(t) != Other {
      MatchedStart(t);
    }
  }

  /** No argument token spells a flag, option or the generic token. */
  lemma NotAnArgument(t: string)
    requires |t| > 1 && (t[0] == '-' || (t[0] == '[' && t[1] == '-'))
    ensures MatchArgument(t) == None
  {
    if MatchArgument(t).Some? {
      var tok := MatchArgument(t).value;
      MatchedArgumentRenders(t, tok.name, tok.optional, tok.repeating);
    }
  }

  /** A rendered option is no flag: its name is followed by `[` or `=`. */
  lemma OptionIsNoFlag(tok: Token)
    requires tok.OptionToken? && WellFormedToken(tok)
    ensures MatchFlag(Render(tok)) == None
  {
    var t := Render(tok);
    if MatchFlag(t).Some? {
      var m := MatchFlag(t).value.name;
      FlagIff(t, m);
      OptionNotFlagShaped(tok, m);
      assert false;
    }
  }

  lemma OptionRenderStart(tok: Token)
    requires tok.OptionToken?
    ensures |Render(tok)| > 1 && Render(tok)[0] == (if tok.optional then '[' else '-')
  {
  }

  lemma OptionNotFlagShaped(tok: Token, m: string)
    requires tok.OptionToken? && WellFormedToken(tok)
    requires Render(tok) == "[--" + m + "]"
    ensures !NonEmptyIn(m, LowerCase)
  {
    var rest := Bracketed(tok.valueIsOptional, "=" + AngledName(tok.valueName));
    var t := Render(tok);
    OptionRenderStart(tok);
    assert t == "[" + ("--" + tok.name + rest) + "]";
    assert m == t[3..|t| - 1];
    assert m == tok.name + rest by {
      assert t[3..|t| - 1] == tok.name + rest;
    }
    assert m[|tok.name|] == rest[0];
  }

  /** Classifying a rendered token gives the token back. */
  lemma ClassifyRender(tok: Token)
    requires WellFormedToken(tok)
    ensures Classify(Render(tok)) == tok
  {
    match tok {
      case ArgumentToken(n, o, r) => RenderedArgumentMatches(n, o, r);
      case FlagToken(n) => ClassifyRenderFlag(n);
      case OptionToken(n, o, vo, v) => ClassifyRenderOption(n, o, vo, v);
      case GenericToken => ClassifyRenderGeneric();
    }
  }

  lemma ClassifyRenderFlag(n: string)
    requires WellFormedToken(FlagToken(n))
    ensures Classify(Render(FlagToken(n))) == FlagToken(n)
  {
    var t := Render(FlagToken(n));
    NotAnArgument(t);
    FlagIff(t, n);
  }

  lemma ClassifyRenderOption(n: string, o: bool, vo: bool, v: string)
    requires WellFormedToken(OptionToken(n, o, vo, v))
    ensures Classify(Render(OptionToken(n, o, vo, v))) == OptionToken(n, o, vo, v)
  {
    var t := Render(OptionToken(n, o, vo, v));
    assert t[0] == '-' || t[1] == '-';
    NotAnArgument(t);
    OptionIsNoFlag(OptionToken(n, o, vo, v));
    OptionIff(t, n, o, vo, v);
  }

  lemma ClassifyRenderGeneric()
    ensures Classify(Render(GenericToken)) == GenericToken
  {
    var t := Render(GenericToken);
    NotAnArgument(t);
    assert !InCharset(t[3], LowerCase);
    if MatchOption(t).Some? {
      assert false;
    }
  }

  /** Rendering a recognized token gives the token text back. */
  lemma RenderClassify(t: string)
    requires Classify(t) != Other
    ensures Render(Classify(t)) == t
  {
    match Classify(t)
    case ArgumentToken(n, o, r) => MatchedArgumentRenders(t, n, o, r);
    case FlagToken(n) => FlagIff(t, n);
    case OptionToken(n, o, vo, v) => MatchedOptionRenders(t, n, o, vo, v);
    case GenericToken =>
  }

  // ---------------------------------------------------------------------------
  // Parsing

  /** The number of leading name tokens. */
  function LeadingNames(ts: seq<string>): (n: nat)
    ensures n <= |ts|
    ensures forall k :: 0 <= k < n ==> IsName(ts[k])
    ensures n < |ts| ==> !IsName(ts[n])
    decreases |ts|
  {
    if ts != [] && IsName(ts[0]) then 1 + LeadingNames(ts[1..]) else 0
  }

  /** The command operation a recognized token stands for, with the descriptor `*FromSignature` builds. */
  function StepOf(tok: Token): CommandStep
    requires tok != Other
  {
    match tok
    case ArgumentToken(n, optional, repeating) => AddArgumentStep(ArgumentSpec(n, optional, repeating, None, None, []))
    case FlagToken(n) => AddFlagStep(FlagSpec(n, None))
    case OptionToken(n, optional, valueIsOptional, _) => AddOptionStep(OptionSpec(n, optional, valueIsOptional, None, None, []))
    case GenericToken => SetStep(SetAcceptArbitraryOptions(true))
  }

  /** The second loop of `parse`: each token in turn, stopping at the first error. */
  function Feed(st: CommandState, ts: seq<string>): Result<CommandState>
    decreases |ts|
  {
    if ts == [] then Ok(st)
    else
      var tok := Classify(ts[0]);
      if tok == Other then Err(UnrecognizedToken(ts[0]))
      else
        var (o, next) := Step(st, StepOf(tok));
        if o.Fail? then Err(o.error) else Feed(next, ts[1..])
  }

  /** `new Command()` followed by `setName`. */
  function Named(name: string): CommandState {
    CommandState(false, NewCommandFields.(name := Some(name)), [], [])
  }

  function ParseTokens(ts: seq<string>): Result<CommandState> {
    if ts == [] then Err(EmptySignature)
    else
      var n := LeadingNames(ts);
      if n == 0 then Err(MissingCommandName)
      else Feed(Named(JoinWords(ts[..n])), ts[n..])
  }

  /** What `parse` builds from a signature, as a command state. */
  function ParseSignature(signature: string): Result<CommandState> {
    ParseTokens(Tokens(signature))
  }

  /** Command operations run in order until one fails. */
  function RunSteps(st: CommandState, ops: seq<CommandStep>): Result<CommandState>
    decreases |ops|
  {
    if ops == [] then Ok(st)
    else
      var (o, next) := Step(st, ops[0]);
      if o.Fail? then Err(o.error) else RunSteps(next, ops[1..])
  }

  /** Running steps to the end agrees with the unconditional `Run`. */
  lemma {:induction false} RunStepsIsRun(st: CommandState, ops: seq<CommandStep>)
    requires RunSteps(st, ops).Ok?
    ensures RunSteps(st, ops).value == Run(st, ops)
    decreases |ops|
  {
    if ops != [] {
      RunStepsIsRun(Step(st, ops[0]).1, ops[1..]);
    }
  }

  /** Feeding keeps the command invariant, the name and the kind of command. */
  lemma {:induction false} FeedKeepsGood(st: CommandState, ts: seq<string>)
    requires Good(st)
    requires Feed(st, ts).Ok?
    ensures Good(Feed(st, ts).value)
    ensures Feed(st, ts).value.fields.name == st.fields.name
    ensures Feed(st, ts).value.isNamespace == st.isNamespace
    decreases |ts|
  {
    if ts != [] {
      var op := StepOf(Classify(ts[0]));
      StepKeepsGood(st, op);
      FeedKeepsGood(Step(st, op).1, ts[1..]);
    }
  }

  /** A signature without tokens is rejected as empty. */
  lemma BlankSignature(signature: string)
    requires forall i :: 0 <= i < |signature| ==> IsSpace(signature[i])
    ensures ParseSignature(signature) == Err(EmptySignature)
  {
    BlankHasNoTokens(signature, "");
  }

  /**
   * A parsed command is a proper, non-namespace command whose name is the
   * leading name tokens joined by single spaces.
   */
  lemma ParsedCommandIsGood(signature: string)
    requires ParseSignature(signature).Ok?
    ensures var ts := Tokens(signature);
      && 0 < LeadingNames(ts)
      && Good(ParseSignature(signature).value)
      && !ParseSignature(signature).value.isNamespace
      && ParseSignature(signature).value.fields.name == Some(JoinWords(ts[..LeadingNames(ts)]))
  {
    var ts := Tokens(signature);
    var n := LeadingNames(ts);
    FeedKeepsGood(Named(JoinWords(ts[..n])), ts[n..]);
  }

  /** A name-like token after the first parameter is an unrecognized token. */
  lemma NameAfterParameter(st: CommandState, t: string, rest: seq<string>)
    requires IsName(t)
    ensures Feed(st, [t] + rest) == Err(UnrecognizedToken(t))
  {
    NameIsNoParameter(t);
  }

  // ---------------------------------------------------------------------------
  // Rendered signatures parse back

  predicate NoSpace(s: string) {
    forall i :: 0 <= i < |s| ==> !IsSpace(s[i])
  }

  lemma NoSpaceConcat(a: string, b: string)
    requires NoSpace(a) && NoSpace(b)
    ensures NoSpace(a + b)
  {
    assert forall i :: 0 <= i < |a + b| ==> (a + b)[i] == if i < |a| then a[i] else b[i - |a|];
  }

  lemma CharsetHasNoSpace(s: string, cs: NameCharset)
    requires NonEmptyIn(s, cs)
    ensures NoSpace(s)
  {
  }

  lemma BracketedNoSpace(b: bool, s: string)
    requires NoSpace(s)
    ensures NoSpace(Bracketed(b, s))
  {
    if b {
      NoSpaceConcat("[", s);
      NoSpaceConcat("[" + s, "]");
    }
  }

  lemma AngledNameNoSpace(n: string, cs: NameCharset)
    requires NonEmptyIn(n, cs)
    ensures NoSpace(AngledName(n)) && |AngledName(n)| >= 3
  {
    CharsetHasNoSpace(n, cs);
    NoSpaceConcat("<", n);
    NoSpaceConcat("<" + n, ">");
  }

  /** A rendered token survives splitting whole and is never taken for a name. */
  lemma RenderIsToken(tok: Token)
    requires WellFormedToken(tok)
    ensures IsToken(Render(tok)) && !IsName(Render(tok))
  {
    match tok {
      case ArgumentToken(n, o, r) => ArgumentRenderIsToken(n, o, r);
      case FlagToken(n) => FlagRenderIsToken(n);
      case OptionToken(n, o, vo, v) => OptionRenderIsToken(n, o, vo, v);
      case GenericToken =>
    }
    ClassifyRender(tok);
    if IsName(Render(tok)) {
      NameIsNoParameter(Render(tok));
    }
  }

  lemma ArgumentRenderIsToken(n: string, o: bool, r: bool)
    requires WellFormedToken(ArgumentToken(n, o, r))
    ensures IsToken(Render(ArgumentToken(n, o, r)))
  {
    AngledNameNoSpace(n, MixedCase);
    NoSpaceConcat(AngledName(n), Dots(r));
    BracketedNoSpace(o, AngledName(n) + Dots(r));
  }

  lemma FlagRenderIsToken(n: string)
    requires WellFormedToken(FlagToken(n))
    ensures IsToken(Render(FlagToken(n)))
  {
    CharsetHasNoSpace(n, LowerCase);
    NoSpaceConcat("[--", n);
    NoSpaceConcat("[--" + n, "]");
  }

  lemma OptionRenderIsToken(n: string, o: bool, vo: bool, v: string)
    requires WellFormedToken(OptionToken(n, o, vo, v))
    ensures IsToken(Render(OptionToken(n, o, vo, v)))
  {
    AngledNameNoSpace(v, MixedCase);
    NoSpaceConcat("=", AngledName(v));
    BracketedNoSpace(vo, "=" + AngledName(v));
    CharsetHasNoSpace(n, LowerCase);
    NoSpaceConcat("--", n);
    NoSpaceConcat("--" + n, Bracketed(vo, "=" + AngledName(v)));
    BracketedNoSpace(o, "--" + n + Bracketed(vo, "=" + AngledName(v)));
  }

  function RenderAll(toks: seq<Token>): (r: seq<string>)
    requires forall k :: 0 <= k < |toks| ==> WellFormedToken(toks[k])
    ensures |r| == |toks|
    ensures forall k :: 0 <= k < |toks| ==> WellFormedToken(toks[k]) && r[k] == Render(toks[k])
  {
    if toks == [] then [] else assert WellFormedToken(toks[0]); [Render(toks[0])] + RenderAll(toks[1..])
  }

  function StepsOf(toks: seq<Token>): (r: seq<CommandStep>)
    requires forall k :: 0 <= k < |toks| ==> WellFormedToken(toks[k])
    ensures |r| == |toks|
    ensures forall k :: 0 <= k < |toks| ==> WellFormedToken(toks[k]) && r[k] == StepOf(toks[k])
  {
    if toks == [] then [] else assert WellFormedToken(toks[0]); [StepOf(toks[0])] + StepsOf(toks[1..])
  }

  lemma {:induction false} FeedRendered(st: CommandState, toks: seq<Token>)
    requires forall k :: 0 <= k < |toks| ==> WellFormedToken(toks[k])
    ensures Feed(st, RenderAll(toks)) == RunSteps(st, StepsOf(toks))
    decreases |toks|
  {
    if toks != [] {
      ClassifyRender(toks[0]);
      assert RenderAll(toks)[1..] == RenderAll(toks[1..]);
      assert StepsOf(toks)[1..] == StepsOf(toks[1..]);
      FeedRendered(Step(st, StepOf(toks[0])).1, toks[1..]);
    }
  }

  lemma {:induction false} LeadingNamesOfPrefix(names: seq<string>, rest: seq<string>)
    requires forall k :: 0 <= k < |names| ==> IsName(names[k])
    requires rest == [] || !IsName(rest[0])
    ensures LeadingNames(names + rest) == |names|
    decreases |names|
  {
    if names == [] {
      assert names + rest == rest;
    } else {
      assert (names + rest)[1..] == names[1..] + rest;
      LeadingNamesOfPrefix(names[1..], rest);
    }
  }

  /**
   * Parsing the name words followed by rendered parameter tokens, all joined
   * by single spaces, names the command by those words and then runs exactly
   * the tokens' add operations, in order, up to the first that fails.
   */
  lemma ParseRendered(names: seq<string>, toks: seq<Token>)
    requires names != []
    requires forall k :: 0 <= k < |names| ==> IsToken(names[k]) && IsName(names[k])
    requires forall k :: 0 <= k < |toks| ==> WellFormedToken(toks[k])
    ensures ParseSignature(JoinWords(names + RenderAll(toks))) ==
      RunSteps(Named(JoinWords(names)), StepsOf(toks))
  {
    var rendered := RenderAll(toks);
    var ts := names + rendered;
    forall k | 0 <= k < |toks| {
      RenderIsToken(toks[k]);
    }
    assert forall k :: 0 <= k < |ts| ==> IsToken(ts[k]);
    TokensOfJoinWords(ts);
    LeadingNamesOfPrefix(names, rendered);
    assert ts[..|names|] == names && ts[|names|..] == rendered;
    FeedRendered(Named(JoinWords(names)), toks);
  }

  // ---------------------------------------------------------------------------
  // The parser itself

  /** `argumentFromSignature`, given what the token regex captured. */
  method ArgumentFromSignature(name: string, optional: bool, repeating: bool) returns (a: Argument)
    requires NonEmptyIn(name, MixedCase)
    ensures fresh(a) && a.Spec() == ArgumentSpec(name, optional, repeating, None, None, [])
  {
    IsValidNameIffCharset(name, MixedCase);
    a := new Argument(name);
    if optional {
      a.Set(SetArgumentOptional(true));
    }
    if repeating {
      a.Set(SetArgumentRepeating(true));
    }
  }

  /** `flagFromSignature`. */
  method FlagFromSignature(name: string) returns (f: Flag)
    requires NonEmptyIn(name, LowerCase)
    ensures fresh(f) && f.Spec() == FlagSpec(name, None)
  {
    IsValidNameIffCharset(name, LowerCase);
    f := new Flag(name);
  }

  /** `optionFromSignature`; a new option starts optional with a required value. */
  method OptionFromSignature(name: string, optional: bool, valueIsOptional: bool) returns (op: AssocOption)
    requires NonEmptyIn(name, LowerCase)
    ensures fresh(op) && op.Spec() == OptionSpec(name, optional, valueIsOptional, None, None, [])
  {
    IsValidNameIffCharset(name, LowerCase);
    op := new AssocOption(name);
    if !optional {
      op.Set(SetOptionOptional(false));
    }
    if valueIsOptional {
      op.Set(SetValueIsOptional(true));
    }
  }

  /** One pass of the second loop of `parse`, for a recognized token. */
  method AddToken(command: Command, tok: Token) returns (o: Outcome)
    requires tok != Other && WellFormedToken(tok)
    modifies command
    ensures (o, command.State()) == Step(old(command.State()), StepOf(tok))
    ensures command.parent == old(command.parent)
  {
    match tok {
      case ArgumentToken(n, optional, repeating) => o := AddArgumentToken(command, tok);
      case FlagToken(n) => o := AddFlagToken(command, tok);
      case OptionToken(n, optional, valueIsOptional, _) => o := AddOptionToken(command, tok);
      case GenericToken => o := command.Set(SetAcceptArbitraryOptions(true));
    }
  }

  /** A positional-argument token: a new argument added to the command. */
  method AddArgumentToken(command: Command, tok: Token) returns (o: Outcome)
    requires tok.ArgumentToken? && WellFormedToken(tok)
    modifies command
    ensures (o, command.State()) == Step(old(command.State()), StepOf(tok))
    ensures command.parent == old(command.parent)
  {
    var a := ArgumentFromSignature(tok.name, tok.optional, tok.repeating);
    StateFramed(command);
    o := command.AddArgument(a);
  }

  /** A flag token: a new flag added to the command. */
  method AddFlagToken(command: Command, tok: Token) returns (o: Outcome)
    requires tok.FlagToken? && WellFormedToken(tok)
    modifies command
    ensures (o, command.State()) == Step(old(command.State()), StepOf(tok))
    ensures command.parent == old(command.parent)
  {
    var f := FlagFromSignature(tok.name);
    StateFramed(command);
    o := command.AddFlag(f);
  }

  /** An option token: a new option added to the command. */
  method AddOptionToken(command: Command, tok: Token) returns (o: Outcome)
    requires tok.OptionToken? && WellFormedToken(tok)
    modifies command
    ensures (o, command.State()) == Step(old(command.State()), StepOf(tok))
    ensures command.parent == old(command.parent)
  {
    var op := OptionFromSignature(tok.name, tok.optional, tok.valueIsOptional);
    StateFramed(command);
    o := command.AddOption(op);
  }

  /** The first loop of `parse`: shifts tokens while they look like names. */
  method TakeName(tokens: seq<string>) returns (name: seq<string>)
    ensures name == tokens[..LeadingNames(tokens)]
  {
    name := [];
    var i := 0;
    while i < |tokens| && IsName(tokens[i])
      invariant 0 <= i <= |tokens| && name == tokens[..i]
      invariant forall k :: 0 <= k < i ==> IsName(tokens[k])
    {
      name := name + [tokens[i]];
      i := i + 1;
    }
    assert i == LeadingNames(tokens);
  }

  /** `new Command()` followed by `setName`. */
  method NewNamedCommand(name: string) returns (command: Command)
    ensures fresh(command) && command.parent == null && command.State() == Named(name)
  {
    command := new Command();
    var _ := command.Set(SetName(name));
    assert command.State() == Named(name);
  }

  /** The second loop of `parse`: each token is classified and added, up to the first failure. */
  method FeedTokens(command: Command, tokens: seq<string>) returns (o: Outcome)
    modifies command
    ensures command.parent == old(command.parent)
    ensures Feed(old(command.State()), tokens) == if o.Fail? then Err(o.error) else Ok(command.State())
  {
    ghost var goal := Feed(command.State(), tokens);
    var i := 0;
    while i < |tokens|
      invariant 0 <= i <= |tokens|
      invariant command.parent == old(command.parent)
      invariant Feed(command.State(), tokens[i..]) == goal
      decreases |tokens| - i
    {
      var token := tokens[i];
      assert tokens[i..][1..] == tokens[i + 1..];
      if Classify(token) == Other {
        return Fail(UnrecognizedToken(token));
      }
      o := AddToken(command, Classify(token));
      if o.Fail? {
        return;
      }
      i := i + 1;
    }
    return Pass;
  }

  /** `parse`: the command it returns is in the state `ParseSignature` describes. */
  method Parse(signature: string) returns (r: Result<Command>)
    ensures ParseSignature(signature).Err? ==> r == Err(ParseSignature(signature).error)
    ensures ParseSignature(signature).Ok? ==>
      && r.Ok? && fresh(r.value) && r.value.parent == null
      && r.value.State() == ParseSignature(signature).value
  {
    var tokens := Tokens(signature);
    ghost var goal := ParseSignature(signature);
    if tokens == [] {
      return Err(EmptySignature);
    }
    var name := TakeName(tokens);
    var i := |name|;
    if name == [] {
      return Err(MissingCommandName);
    }
    assert goal == Feed(Named(JoinWords(name)), tokens[i..]);
    var command := NewNamedCommand(JoinWords(name));
    var o := FeedTokens(command, tokens[i..]);
    if o.Fail? {
      return Err(o.error);
    }
    return Ok(command);
  }
}
