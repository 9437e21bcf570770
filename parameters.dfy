/**
 * The three parameter descriptors of a command: positional arguments
 * (src/Argument.php), flags (src/Flag.php) and associative options
 * (src/Option.php, named `AssocOption` here after WP-CLI's `assoc` type).
 *
 * Each descriptor is a class whose name is fixed at construction and whose
 * setters update fields in place. `Spec()` reads the fields into a value,
 * and the synopsis a descriptor hands to WP-CLI is a pure function of that
 * value.
 */
module Parameters {
  import opened Wrappers
  import opened PhpArrays

  // ---------------------------------------------------------------------------
  // Names

  /** The two character classes names are checked against. */
  datatype NameCharset =
    | MixedCase   // `a-zA-Z\-_0-9`, argument names
    | LowerCase   // `a-z\-_0-9`, flag and option names

  predicate InCharset(c: char, cs: NameCharset) {
    || 'a' <= c <= 'z'
    || (cs == MixedCase && 'A' <= c <= 'Z')
    || '0' <= c <= '9'
    || c == '-' || c == '_'
  }

  /** `preg_replace('/[^<charset>]/', '', s)`: drops every character outside the class. */
  function Strip(s: string, cs: NameCharset): (r: string)
    ensures |r| <= |s|
    ensures forall i :: 0 <= i < |r| ==> InCharset(r[i], cs)
  {
    if s == [] then []
    else (if InCharset(s[0], cs) then [s[0]] else []) + Strip(s[1..], cs)
  }

  /** `isValidName`: stripping the disallowed characters changes nothing. */
  predicate IsValidName(s: string, cs: NameCharset) {
    Strip(s, cs) == s
  }

  /**
   * A name is valid exactly when every character is in the class; the empty
   * name is valid.
   */
  lemma {:induction false} IsValidNameIffCharset(s: string, cs: NameCharset)
    ensures IsValidName(s, cs) <==> forall i :: 0 <= i < |s| ==> InCharset(s[i], cs)
  {
    if forall i :: 0 <= i < |s| ==> InCharset(s[i], cs) {
      StripKeepsValid(s, cs);
    }
  }

  lemma {:induction false} StripKeepsValid(s: string, cs: NameCharset)
    requires forall i :: 0 <= i < |s| ==> InCharset(s[i], cs)
    ensures Strip(s, cs) == s
  {
    if s != [] {
      assert InCharset(s[0], cs);
      StripKeepsValid(s[1..], cs);
    }
  }

  /** Every lower-case name is also a valid argument name. */
  lemma LowerCaseNamesAreMixedCase(s: string)
    requires IsValidName(s, LowerCase)
    ensures IsValidName(s, MixedCase)
  {
    IsValidNameIffCharset(s, LowerCase);
    IsValidNameIffCharset(s, MixedCase);
  }

  // ---------------------------------------------------------------------------
  // Synopsis entries, as WP-CLI receives them

  datatype SynopsisType = PositionalType | AssocType | FlagType | GenericType

  /** The `value` entry of an option: `['optional' => true, 'name' => ...]`. */
  datatype ValueSpec = ValueSpec(optional: bool, name: string)

  /**
   * One synopsis array. A `None` field is a key the array does not have;
   * `name` is absent only from the generic entry.
   */
  datatype SynopsisEntry = SynopsisEntry(
    kind: SynopsisType,
    name: Option<string>,
    optional: bool,
    repeating: bool,
    description: Option<string>,
    default: Option<string>,
    options: Option<seq<string>>,
    value: Option<ValueSpec>)

  /** `['type' => 'generic', 'optional' => true, 'repeating' => false]`. */
  const GenericEntry: SynopsisEntry :=
    SynopsisEntry(GenericType, None, true, false, None, None, None, None)

  /** The `options` key: present only for a non-empty list. */
  function OptionsKey(options: seq<string>): (r: Option<seq<string>>)
    ensures r.Some? <==> options != []
    ensures r.Some? ==> r.value == options
  {
    if options == [] then None else Some(options)
  }

  // ---------------------------------------------------------------------------
  // Arguments

  datatype ArgumentSpec = ArgumentSpec(
    name: string,
    optional: bool,
    repeating: bool,
    default: Option<string>,
    description: Option<string>,
    options: seq<string>)

  /** A required argument with a default is refused by `validate`. */
  predicate ArgumentIsValid(a: ArgumentSpec) {
    !(a.default.Some? && !a.optional)
  }

  /** `Argument::getSynopsis`. */
  function ArgumentSynopsis(a: ArgumentSpec): (r: Result<SynopsisEntry>)
    ensures r.Ok? <==> ArgumentIsValid(a)
    ensures r.Err? ==> r.error == RequiredArgumentWithDefault(a.name)
    ensures r.Ok? ==> var e := r.value;
      && e.kind == PositionalType && e.name == Some(a.name)
      && e.optional == a.optional && e.repeating == a.repeating
      && (e.description.Some? <==> Truthy(a.description))
      && (e.description.Some? ==> e.description == a.description)
      && e.default == a.default
      && (e.options.Some? <==> a.options != [])
      && (e.options.Some? ==> e.options.value == a.options)
      && e.value == None
  {
    if !ArgumentIsValid(a) then Err(RequiredArgumentWithDefault(a.name))
    else Ok(SynopsisEntry(
      PositionalType, Some(a.name), a.optional, a.repeating,
      if Truthy(a.description) then a.description else None,
      a.default, OptionsKey(a.options), None))
  }

  /** The setters of an argument, as values, so that sequences of them can be reasoned about. */
  datatype ArgumentSetter =
    | SetArgumentDefault(default: string)
    | SetArgumentDescription(description: string)
    | SetArgumentOptional(optional: bool)
    | SetArgumentOptions(options: seq<string>)
    | SetArgumentRepeating(repeating: bool)

  function ApplyArgumentSetter(a: ArgumentSpec, s: ArgumentSetter): (r: ArgumentSpec)
    ensures r.name == a.name
  {
    match s
    case SetArgumentDefault(d) => a.(default := Some(d))
    case SetArgumentDescription(d) => a.(description := Some(d))
    case SetArgumentOptional(b) => a.(optional := b)
    case SetArgumentOptions(os) => a.(options := os)
    case SetArgumentRepeating(b) => a.(repeating := b)
  }

  function ApplyArgumentSetters(a: ArgumentSpec, ss: seq<ArgumentSetter>): ArgumentSpec
    decreases |ss|
  {
    if ss == [] then a else ApplyArgumentSetters(ApplyArgumentSetter(a, ss[0]), ss[1..])
  }

  /** The value of `optional` after the setters: the last `setOptional` wins. */
  function FinalArgumentOptional(initial: bool, ss: seq<ArgumentSetter>): bool
    decreases |ss|
  {
    if ss == [] then initial
    else FinalArgumentOptional(if ss[0].SetArgumentOptional? then ss[0].optional else initial, ss[1..])
  }

  /** Whether some `setDefault` ran, or a default was there already. */
  function FinalArgumentHasDefault(initial: bool, ss: seq<ArgumentSetter>): bool
    decreases |ss|
  {
    if ss == [] then initial
    else FinalArgumentHasDefault(initial || ss[0].SetArgumentDefault?, ss[1..])
  }

  /**
   * Validation runs only when the synopsis is asked for, so it fails exactly
   * when the final state is required-with-default, whatever the order of the
   * setters.
   */
  lemma {:induction false} ArgumentValidationIsOrderIndependent(a: ArgumentSpec, ss: seq<ArgumentSetter>)
    ensures ArgumentSynopsis(ApplyArgumentSetters(a, ss)).Err?
      <==> FinalArgumentHasDefault(a.default.Some?, ss) && !FinalArgumentOptional(a.optional, ss)
    decreases |ss|
  {
    if ss != [] {
      ArgumentValidationIsOrderIndependent(ApplyArgumentSetter(a, ss[0]), ss[1..]);
    }
  }

  class Argument {
    const name: string
    var optional: bool
    var repeating: bool
    var default: Option<string>
    var description: Option<string>
    var options: seq<string>

    constructor (name: string)
      requires IsValidName(name, MixedCase)
      ensures Spec() == ArgumentSpec(name, false, false, None, None, [])
    {
      this.name := name;
      optional := false;
      repeating := false;
      default := None;
      description := None;
      options := [];
    }

    /** `new Argument($name)`, which throws on an invalid name. */
    static method Create(name: string) returns (r: Result<Argument>)
      ensures r.Err? <==> !IsValidName(name, MixedCase)
      ensures r.Err? ==> r.error == InvalidName(ArgumentKind)
      ensures r.Ok? ==> fresh(r.value) && r.value.Spec() == ArgumentSpec(name, false, false, None, None, [])
    {
      if IsValidName(name, MixedCase) {
        var a := new Argument(name);
        r := Ok(a);
      } else {
        r := Err(InvalidName(ArgumentKind));
      }
    }

    function Spec(): ArgumentSpec
      reads this
    {
      ArgumentSpec(name, optional, repeating, default, description, options)
    }

    /** `getSynopsis`. */
    function Synopsis(): (r: Result<SynopsisEntry>)
      reads this
    {
      ArgumentSynopsis(Spec())
    }

    method Set(s: ArgumentSetter)
      modifies this
      ensures Spec() == ApplyArgumentSetter(old(Spec()), s)
    {
      match s
      case SetArgumentDefault(d) => default := Some(d);
      case SetArgumentDescription(d) => description := Some(d);
      case SetArgumentOptional(b) => optional := b;
      case SetArgumentOptions(os) => options := os;
      case SetArgumentRepeating(b) => repeating := b;
    }
  }

  // ---------------------------------------------------------------------------
  // Flags

  datatype FlagSpec = FlagSpec(name: string, description: Option<string>)

  /** `Flag::getSynopsis`: there is no validation, so it cannot fail. */
  function FlagSynopsis(f: FlagSpec): (e: SynopsisEntry)
    ensures e.kind == FlagType && e.name == Some(f.name)
    ensures e.optional && !e.repeating
    ensures e.description.Some? <==> Truthy(f.description)
    ensures e.description.Some? ==> e.description == f.description
    ensures e.default == None && e.options == None && e.value == None
  {
    SynopsisEntry(FlagType, Some(f.name), true, false,
      if Truthy(f.description) then f.description else None, None, None, None)
  }

  class Flag {
    const name: string
    var description: Option<string>

    constructor (name: string)
      requires IsValidName(name, LowerCase)
      ensures Spec() == FlagSpec(name, None)
    {
      this.name := name;
      description := None;
    }

    /** `new Flag($name)`, which throws on an invalid name. */
    static method Create(name: string) returns (r: Result<Flag>)
      ensures r.Err? <==> !IsValidName(name, LowerCase)
      ensures r.Err? ==> r.error == InvalidName(FlagKind)
      ensures r.Ok? ==> fresh(r.value) && r.value.Spec() == FlagSpec(name, None)
    {
      if IsValidName(name, LowerCase) {
        var f := new Flag(name);
        r := Ok(f);
      } else {
        r := Err(InvalidName(FlagKind));
      }
    }

    function Spec(): FlagSpec
      reads this
    {
      FlagSpec(name, description)
    }

    function Synopsis(): (e: SynopsisEntry)
      reads this
    {
      FlagSynopsis(Spec())
    }

    method SetDescription(d: string)
      modifies this
      ensures Spec() == old(Spec()).(description := Some(d))
    {
      description := Some(d);
    }
  }

  // ---------------------------------------------------------------------------
  // Options

  datatype OptionSpec = OptionSpec(
    name: string,
    optional: bool,
    valueIsOptional: bool,
    default: Option<string>,
    description: Option<string>,
    options: seq<string>)

  /** A required option whose value is optional is refused by `validate`. */
  predicate OptionIsValid(o: OptionSpec) {
    !(!o.optional && o.valueIsOptional)
  }

  /** `Option::getSynopsis`. */
  function OptionSynopsis(o: OptionSpec): (r: Result<SynopsisEntry>)
    ensures r.Ok? <==> OptionIsValid(o)
    ensures r.Err? ==> r.error == RequiredOptionWithOptionalValue(o.name)
    ensures r.Ok? ==> var e := r.value;
      && e.kind == AssocType && e.name == Some(o.name)
      && e.optional == o.optional && !e.repeating
      && e.description == o.description
      && e.default == o.default
      && (e.options.Some? <==> o.options != [])
      && (e.options.Some? ==> e.options.value == o.options)
      && (e.value.Some? <==> o.valueIsOptional)
      && (e.value.Some? ==> e.value.value == ValueSpec(true, o.name))
  {
    if !OptionIsValid(o) then Err(RequiredOptionWithOptionalValue(o.name))
    else Ok(SynopsisEntry(
      AssocType, Some(o.name), o.optional, false, o.description, o.default,
      OptionsKey(o.options),
      if o.valueIsOptional then Some(ValueSpec(true, o.name)) else None))
  }

  datatype OptionSetter =
    | SetOptionDefault(default: string)
    | SetOptionDescription(description: string)
    | SetOptionOptional(optional: bool)
    | SetOptionOptions(options: seq<string>)
    | SetValueIsOptional(valueIsOptional: bool)

  function ApplyOptionSetter(o: OptionSpec, s: OptionSetter): (r: OptionSpec)
    ensures r.name == o.name
  {
    match s
    case SetOptionDefault(d) => o.(default := Some(d))
    case SetOptionDescription(d) => o.(description := Some(d))
    case SetOptionOptional(b) => o.(optional := b)
    case SetOptionOptions(os) => o.(options := os)
    case SetValueIsOptional(b) => o.(valueIsOptional := b)
  }

  function ApplyOptionSetters(o: OptionSpec, ss: seq<OptionSetter>): OptionSpec
    decreases |ss|
  {
    if ss == [] then o else ApplyOptionSetters(ApplyOptionSetter(o, ss[0]), ss[1..])
  }

  function FinalOptionOptional(initial: bool, ss: seq<OptionSetter>): bool
    decreases |ss|
  {
    if ss == [] then initial
    else FinalOptionOptional(if ss[0].SetOptionOptional? then ss[0].optional else initial, ss[1..])
  }

  function FinalValueIsOptional(initial: bool, ss: seq<OptionSetter>): bool
    decreases |ss|
  {
    if ss == [] then initial
    else FinalValueIsOptional(if ss[0].SetValueIsOptional? then ss[0].valueIsOptional else initial, ss[1..])
  }

  /**
   * An option's synopsis fails exactly when, after all setters, it is
   * required and its value optional, in whatever order the setters ran.
   */
  lemma {:induction false} OptionValidationIsOrderIndependent(o: OptionSpec, ss: seq<OptionSetter>)
    ensures OptionSynopsis(ApplyOptionSetters(o, ss)).Err?
      <==> !FinalOptionOptional(o.optional, ss) && FinalValueIsOptional(o.valueIsOptional, ss)
    decreases |ss|
  {
    if ss != [] {
      OptionValidationIsOrderIndependent(ApplyOptionSetter(o, ss[0]), ss[1..]);
    }
  }

  class AssocOption {
    const name: string
    var optional: bool
    var valueIsOptional: bool
    var default: Option<string>
    var description: Option<string>
    var options: seq<string>

    constructor (name: string)
      requires IsValidName(name, LowerCase)
      ensures Spec() == OptionSpec(name, true, false, None, None, [])
    {
      this.name := name;
      optional := true;
      valueIsOptional := false;
      default := None;
      description := None;
      options := [];
    }

    /** `new Option($name)`, which throws on an invalid name. */
    static method Create(name: string) returns (r: Result<AssocOption>)
      ensures r.Err? <==> !IsValidName(name, LowerCase)
      ensures r.Err? ==> r.error == InvalidName(OptionKind)
      ensures r.Ok? ==> fresh(r.value) && r.value.Spec() == OptionSpec(name, true, false, None, None, [])
    {
      if IsValidName(name, LowerCase) {
        var o := new AssocOption(name);
        r := Ok(o);
      } else {
        r := Err(InvalidName(OptionKind));
      }
    }

    function Spec(): OptionSpec
      reads this
    {
      OptionSpec(name, optional, valueIsOptional, default, description, options)
    }

    function Synopsis(): (r: Result<SynopsisEntry>)
      reads this
    {
      OptionSynopsis(Spec())
    }

    method Set(s: OptionSetter)
      modifies this
      ensures Spec() == ApplyOptionSetter(old(Spec()), s)
    {
      match s
      case SetOptionDefault(d) => default := Some(d);
      case SetOptionDescription(d) => description := Some(d);
      case SetOptionOptional(b) => optional := b;
      case SetOptionOptions(os) => options := os;
      case SetValueIsOptional(b) => valueIsOptional := b;
    }
  }

  // ---------------------------------------------------------------------------
  // The entries of a command's option map: a flag or an option

  datatype Param = FlagParam(flag: Flag) | OptionParam(option: AssocOption) {
    function Name(): string {
      match this
      case FlagParam(f) => f.name
      case OptionParam(o) => o.name
    }

    function Obj(): object {
      match this
      case FlagParam(f) => f
      case OptionParam(o) => o
    }

    function Spec(): ParamSpec
      reads Obj()
    {
      match this
      case FlagParam(f) => FlagValue(f.Spec())
      case OptionParam(o) => OptionValue(o.Spec())
    }
  }

  /** A flag or option read into a value. */
  datatype ParamSpec = FlagValue(flag: FlagSpec) | OptionValue(option: OptionSpec) {
    function Name(): string {
      match this
      case FlagValue(f) => f.name
      case OptionValue(o) => o.name
    }
  }

  function ParamSynopsis(p: ParamSpec): Result<SynopsisEntry>
  {
    match p
    case FlagValue(f) => Ok(FlagSynopsis(f))
    case OptionValue(o) => OptionSynopsis(o)
  }
}
