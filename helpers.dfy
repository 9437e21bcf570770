/**
 * The fluent helpers that finish a command after it was defined:
 * src/ParsedCommandHelper.php and src/CommandAdditionHelper.php. Both look
 * parameters up by name (a leading `--` stripped) in the arguments merged
 * with the flags and options, and set defaults, descriptions and allowed
 * values on the descriptors found, entry by entry.
 *
 * What each entry does is specified on `CommandState` by `ApplyChange`; the
 * methods are proved to follow it on the descriptor objects.
 */
module Helpers {
  import opened Wrappers
  import opened PhpArrays
  import opened Support
  import opened Parameters
  import opened Commands
  import opened Resolver

  // ---------------------------------------------------------------------------
  // Looking a parameter up

  /** `if ('--' === substr($param, 0, 2)) $param = substr($param, 2);` */
  function StripDashes(param: string): (p: string)
    ensures |param| >= 2 && param[0] == '-' && param[1] == '-' ==> p == param[2..]
    ensures !(|param| >= 2 && param[0] == '-' && param[1] == '-') ==> p == param
  {
    if |param| >= 2 && param[0] == '-' && param[1] == '-' then param[2..] else param
  }

  /** Where a name leads in `array_merge($arguments, $options)`. */
  datatype Target = ArgumentAt(i: nat) | ParamAt(i: nat) | Unregistered

  /** The first position holding `name`, or `|ns|`. */
  function IndexOf(ns: seq<string>, name: string): (i: nat)
    ensures i <= |ns|
    ensures i < |ns| ==> ns[i] == name
    ensures forall k :: 0 <= k < i ==> ns[k] != name
    ensures i == |ns| <==> name !in ns
    decreases |ns|
  {
    if ns == [] then 0 else if ns[0] == name then 0 else 1 + IndexOf(ns[1..], name)
  }

  /** The merged map is keyed by name, and a flag or option wins over an argument of the same name. */
  function Lookup(st: CommandState, name: string): (t: Target)
    ensures t.Unregistered? <==> !NameTaken(st.arguments, st.params, name)
    ensures t.ParamAt? <==> name in ParamNames(st.params)
    ensures t.ParamAt? ==> t.i < |st.params| && st.params[t.i].Name() == name
    ensures t.ArgumentAt? ==> t.i < |st.arguments| && st.arguments[t.i].name == name
  {
    var p := IndexOf(ParamNames(st.params), name);
    var a := IndexOf(ArgumentNames(st.arguments), name);
    if p < |st.params| then ParamAt(p)
    else if a < |st.arguments| then ArgumentAt(a)
    else Unregistered
  }

  // ---------------------------------------------------------------------------
  // One entry of `defaults`, `descriptions` or `options`

  /**
   * The value of one entry, as the PHP array holds it. The setters it
   * reaches take strings only (`setDefault(string)`, `setDescription(string)`,
   * `setOptions(string ...)`), and both helper files are strict-typed, so
   * any other value is a type error at the setter.
   */
  datatype Change =
    | DefaultChange(default: Value)
    | DescriptionChange(description: Value)
    | OptionsChange(options: Value)

  function SettingOf(c: Change): Setting {
    match c
    case DefaultChange(_) => DefaultSetting
    case DescriptionChange(_) => DescriptionSetting
    case OptionsChange(_) => OptionsSetting
  }

  /** The values an array spreads into `setOptions(...$paramOptions)`, in order. */
  function ArrayValues(v: Value): seq<Value>
    requires IsArray(v)
  {
    if v.List? then v.items else seq(|v.entries|, i requires 0 <= i < |v.entries| => v.entries[i].1)
  }

  /** The strings of a list of values, or `None` when one of them is not a string. */
  function Strings(vs: seq<Value>): (r: Option<seq<string>>)
    ensures r.Some? <==> forall i :: 0 <= i < |vs| ==> vs[i].Str?
    ensures r.Some? ==> |r.value| == |vs| && forall i :: 0 <= i < |vs| ==> r.value[i] == vs[i].s
  {
    if vs == [] then Some([])
    else if !vs[0].Str? then None
    else
      match Strings(vs[1..])
      case None => None
      case Some(rest) => Some([vs[0].s] + rest)
  }

  /** The setter an entry reaches accepts its value: a string, or for `options` an array of strings. */
  predicate WellTyped(c: Change) {
    match c
    case DefaultChange(d) => d.Str?
    case DescriptionChange(d) => d.Str?
    case OptionsChange(os) => IsArray(os) && Strings(ArrayValues(os)).Some?
  }

  /** The `is_array` check `options` makes before anything else. */
  predicate PassesArrayCheck(c: Change) {
    c.OptionsChange? ==> IsArray(c.options)
  }

  function ArgumentChange(c: Change): ArgumentSetter
    requires WellTyped(c)
  {
    match c
    case DefaultChange(d) => SetArgumentDefault(d.s)
    case DescriptionChange(d) => SetArgumentDescription(d.s)
    case OptionsChange(os) => SetArgumentOptions(Strings(ArrayValues(os)).value)
  }

  function OptionChange(c: Change): OptionSetter
    requires WellTyped(c)
  {
    match c
    case DefaultChange(d) => SetOptionDefault(d.s)
    case DescriptionChange(d) => SetOptionDescription(d.s)
    case OptionsChange(os) => SetOptionOptions(Strings(ArrayValues(os)).value)
  }

  /** A flag takes a description only; an option takes any of the three. */
  function ChangeParam(p: ParamSpec, c: Change): ParamSpec
    requires WellTyped(c) && (p.FlagValue? ==> c.DescriptionChange?)
  {
    match p
    case FlagValue(f) => FlagValue(f.(description := Some(c.description.s)))
    case OptionValue(o) => OptionValue(ApplyOptionSetter(o, OptionChange(c)))
  }

  /** The name leads to a flag of the command. */
  predicate IsFlag(st: CommandState, name: string) {
    Lookup(st, name).ParamAt? && st.params[Lookup(st, name).i].FlagValue?
  }

  /**
   * What happens to a registered or unregistered name once it has been
   * stripped: an unregistered name fails; a flag refuses all but a
   * description; then the string-typed setter refuses a value of another type.
   */
  function ChangeTarget(st: CommandState, name: string, c: Change): Result<CommandState> {
    match Lookup(st, name)
    case Unregistered => Err(UnregisteredParameter(SettingOf(c), name))
    case ParamAt(i) =>
      if st.params[i].FlagValue? && !c.DescriptionChange? then Err(FlagRejects(SettingOf(c), name))
      else if !WellTyped(c) then Err(SetterTypeError(SettingOf(c), name))
      else Ok(st.(params := st.params[i := ChangeParam(st.params[i], c)]))
    case ArgumentAt(i) =>
      if !WellTyped(c) then Err(SetterTypeError(SettingOf(c), name))
      else Ok(st.(arguments := st.arguments[i := ApplyArgumentSetter(st.arguments[i], ArgumentChange(c))]))
  }

  /**
   * One entry: an `options` value that is not an array fails first; then the
   * stripped name must be registered; a flag refuses all but a description;
   * a value the setter does not take fails last.
   */
  function ApplyChange(st: CommandState, param: string, c: Change): Result<CommandState> {
    if !PassesArrayCheck(c) then Err(OptionsNotAnArray)
    else ChangeTarget(st, StripDashes(param), c)
  }

  /** A result read as what a method returns and the state it leaves: a failure leaves `st`. */
  function AsStep(r: Result<CommandState>, st: CommandState): (Outcome, CommandState) {
    match r
    case Ok(next) => (Pass, next)
    case Err(e) => (Fail(e), st)
  }

  /** The `foreach` over the entries: stops at the first failure, keeping what the earlier entries did. */
  function ApplyChanges(st: CommandState, entries: seq<(string, Change)>): (Outcome, CommandState)
    decreases |entries|
  {
    if entries == [] then (Pass, st)
    else
      match ApplyChange(st, entries[0].0, entries[0].1)
      case Err(e) => (Fail(e), st)
      case Ok(next) => ApplyChanges(next, entries[1..])
  }

  // ---------------------------------------------------------------------------
  // What the entries do

  /** The entries run in order: the later ones start from what the earlier ones left, a failure stops the rest. */
  lemma {:induction false} ApplyChangesAppend(st: CommandState, a: seq<(string, Change)>, b: seq<(string, Change)>)
    ensures ApplyChanges(st, a + b) ==
      if ApplyChanges(st, a).0.Fail? then ApplyChanges(st, a) else ApplyChanges(ApplyChanges(st, a).1, b)
    decreases |a|
  {
    if a == [] {
      assert a + b == b;
    } else {
      assert (a + b)[0] == a[0] && (a + b)[1..] == a[1..] + b;
      var r := ApplyChange(st, a[0].0, a[0].1);
      if r.Ok? {
        ApplyChangesAppend(r.value, a[1..], b);
      }
    }
  }

  /** The same name with or without a leading `--` addresses the same parameter. */
  lemma DashedNameIsTheSame(st: CommandState, p: string, c: Change)
    requires !(|p| >= 2 && p[0] == '-' && p[1] == '-')
    ensures ApplyChange(st, "--" + p, c) == ApplyChange(st, p, c)
  {
    assert ("--" + p)[2..] == p;
  }

  /** A non-array `options` value fails whatever the name, registered or not. */
  lemma NonArrayOptionsFail(st: CommandState, param: string, v: Value)
    requires !IsArray(v)
    ensures ApplyChange(st, param, OptionsChange(v)) == Err(OptionsNotAnArray)
  {
  }

  /**
   * An entry that passes the array check fails exactly when: its name is
   * unregistered; or it names a flag and is not a description; or its value
   * is not what the setter takes. Each cause has its own error, in that order.
   */
  lemma ApplyChangeFails(st: CommandState, param: string, c: Change)
    requires PassesArrayCheck(c)
    ensures var name := StripDashes(param);
      var r := ApplyChange(st, param, c);
      var flagRefuses := IsFlag(st, name) && !c.DescriptionChange?;
      && (r == Err(UnregisteredParameter(SettingOf(c), name)) <==> !NameTaken(st.arguments, st.params, name))
      && (r == Err(FlagRejects(SettingOf(c), name)) <==> flagRefuses)
      && (r == Err(SetterTypeError(SettingOf(c), name)) <==>
            NameTaken(st.arguments, st.params, name) && !flagRefuses && !WellTyped(c))
      && (r.Err? <==> !NameTaken(st.arguments, st.params, name) || flagRefuses || !WellTyped(c))
  {
  }

  /** Names, and whether each flag or option is a flag: what the lookups and mapper searches read. */
  predicate SameNames(st: CommandState, st': CommandState) {
    && ArgumentNames(st'.arguments) == ArgumentNames(st.arguments)
    && ParamNames(st'.params) == ParamNames(st.params)
    && |st'.arguments| == |st.arguments| && |st'.params| == |st.params|
    && (forall i :: 0 <= i < |st.params| ==> st'.params[i].FlagValue? == st.params[i].FlagValue?)
  }

  /** What a successful entry keeps: the command's own fields, and every descriptor's name, kind, optionality and repetition. */
  predicate SameShape(st: CommandState, st': CommandState) {
    && st'.isNamespace == st.isNamespace && st'.fields == st.fields
    && SameNames(st, st')
    && (forall i :: 0 <= i < |st.arguments| ==>
          st'.arguments[i].optional == st.arguments[i].optional && st'.arguments[i].repeating == st.arguments[i].repeating)
  }

  /** Only the descriptors called `name` may differ. */
  predicate OnlyNamedDiffers(st: CommandState, st': CommandState, name: string)
    requires |st'.arguments| == |st.arguments| && |st'.params| == |st.params|
  {
    && (forall i :: 0 <= i < |st.arguments| && st.arguments[i].name != name ==> st'.arguments[i] == st.arguments[i])
    && (forall i :: 0 <= i < |st.params| && st.params[i].Name() != name ==> st'.params[i] == st.params[i])
  }

  lemma ArgumentUpdateKeepsShape(st: CommandState, i: nat, s: ArgumentSetter)
    requires i < |st.arguments| && !s.SetArgumentOptional? && !s.SetArgumentRepeating?
    ensures var st' := st.(arguments := st.arguments[i := ApplyArgumentSetter(st.arguments[i], s)]);
      SameShape(st, st') && OnlyNamedDiffers(st, st', st.arguments[i].name)
  {
    var st' := st.(arguments := st.arguments[i := ApplyArgumentSetter(st.arguments[i], s)]);
    assert ArgumentNames(st'.arguments) == ArgumentNames(st.arguments);
  }

  lemma ParamUpdateKeepsShape(st: CommandState, i: nat, c: Change)
    requires i < |st.params| && WellTyped(c) && (st.params[i].FlagValue? ==> c.DescriptionChange?)
    ensures var st' := st.(params := st.params[i := ChangeParam(st.params[i], c)]);
      SameShape(st, st') && OnlyNamedDiffers(st, st', st.params[i].Name())
  {
    ParamNamesUpdate(st.params, i, ChangeParam(st.params[i], c));
  }

  lemma ParamNamesUpdate(ps: seq<ParamSpec>, i: nat, q: ParamSpec)
    requires i < |ps| && q.Name() == ps[i].Name()
    ensures ParamNames(ps[i := q]) == ParamNames(ps)
  {
    var l, r := ParamNames(ps[i := q]), ParamNames(ps);
    forall k | 0 <= k < |ps| ensures l[k] == r[k] {
    }
  }

  /**
   * A successful change reaches only the descriptor the name addresses, and
   * keeps the command's own fields and every descriptor's name, kind,
   * optionality and repetition.
   */
  lemma ChangeTargetTouchesOnlyTarget(st: CommandState, name: string, c: Change)
    requires ChangeTarget(st, name, c).Ok?
    ensures SameShape(st, ChangeTarget(st, name, c).value)
    ensures OnlyNamedDiffers(st, ChangeTarget(st, name, c).value, name)
  {
    match Lookup(st, name)
    case ParamAt(i) => ParamUpdateKeepsShape(st, i, c);
    case ArgumentAt(i) => ArgumentUpdateKeepsShape(st, i, ArgumentChange(c));
  }

  /** The shape, and so the invariant, carries over. */
  lemma SameShapeKeepsGood(st: CommandState, st': CommandState)
    requires Good(st) && SameShape(st, st')
    ensures Good(st')
  {
  }

  /** The setters involved never touch names, optionality or repetition, so the command invariant holds after every entry. */
  lemma ApplyChangeKeepsGood(st: CommandState, param: string, c: Change)
    requires Good(st) && ApplyChange(st, param, c).Ok?
    ensures Good(ApplyChange(st, param, c).value)
  {
    ChangeTargetTouchesOnlyTarget(st, StripDashes(param), c);
  }

  lemma {:induction false} ApplyChangesKeepsGood(st: CommandState, entries: seq<(string, Change)>)
    requires Good(st)
    ensures Good(ApplyChanges(st, entries).1)
    decreases |entries|
  {
    if entries != [] {
      var r := ApplyChange(st, entries[0].0, entries[0].1);
      if r.Ok? {
        ApplyChangeKeepsGood(st, entries[0].0, entries[0].1);
        ApplyChangesKeepsGood(r.value, entries[1..]);
      }
    }
  }

  /**
   * What a successful entry sets: an argument or option takes the default,
   * the description or the allowed values of the entry; a flag takes a
   * description.
   */
  lemma ChangeTargetSets(st: CommandState, name: string, c: Change)
    requires ChangeTarget(st, name, c).Ok?
    ensures WellTyped(c)
    ensures var t := Lookup(st, name);
      var st' := ChangeTarget(st, name, c).value;
      && !t.Unregistered?
      && (t.ArgumentAt? ==> st'.params == st.params && st'.arguments == st.arguments[t.i := ArgumentWith(st.arguments[t.i], c)])
      && (t.ParamAt? ==> st'.arguments == st.arguments)
      && (t.ParamAt? && st.params[t.i].FlagValue? ==>
            c.DescriptionChange? &&
            st'.params == st.params[t.i := FlagValue(st.params[t.i].flag.(description := Some(c.description.s)))])
      && (t.ParamAt? && st.params[t.i].OptionValue? ==>
            st'.params == st.params[t.i := OptionValue(OptionWith(st.params[t.i].option, c))])
  {
  }

  /** The argument with the entry's value in the field the entry names. */
  function ArgumentWith(a: ArgumentSpec, c: Change): (r: ArgumentSpec)
    requires WellTyped(c)
    ensures c.DefaultChange? ==> r == a.(default := Some(c.default.s))
    ensures c.DescriptionChange? ==> r == a.(description := Some(c.description.s))
    ensures c.OptionsChange? ==> r == a.(options := Strings(ArrayValues(c.options)).value)
  {
    ApplyArgumentSetter(a, ArgumentChange(c))
  }

  function OptionWith(o: OptionSpec, c: Change): (r: OptionSpec)
    requires WellTyped(c)
    ensures c.DefaultChange? ==> r == o.(default := Some(c.default.s))
    ensures c.DescriptionChange? ==> r == o.(description := Some(c.description.s))
    ensures c.OptionsChange? ==> r == o.(options := Strings(ArrayValues(c.options)).value)
  {
    ApplyOptionSetter(o, OptionChange(c))
  }

  lemma {:induction false} ApplyChangesKeepFields(st: CommandState, entries: seq<(string, Change)>)
    ensures ApplyChanges(st, entries).1.fields == st.fields
    ensures ApplyChanges(st, entries).1.isNamespace == st.isNamespace
    decreases |entries|
  {
    if entries != [] {
      var r := ApplyChange(st, entries[0].0, entries[0].1);
      if r.Ok? {
        ChangeTargetTouchesOnlyTarget(st, StripDashes(entries[0].0), entries[0].1);
        ApplyChangesKeepFields(r.value, entries[1..]);
      }
    }
  }

  /**
   * `descriptions` always sets the command's own description, on a
   * namespace too, whether or not a parameter entry fails later.
   */
  lemma DescriptionsSetCommandDescription(st: CommandState, commandDescription: string, ds: Assoc<string, Value>)
    ensures DescriptionsOn(st, commandDescription, ds).1.fields.description == Some(commandDescription)
  {
    ApplyChangesKeepFields(SetOn(st, SetDescription(commandDescription)).1, DescriptionEntries(ds));
  }

  // ---------------------------------------------------------------------------
  // Handler defaults (`setHandlerDefaultsViaReflection`)

  /** `new ParsedCommandHelper($command)` without mappers: identity, then kebab, snake, camel and Pascal case. */
  function DefaultMappers(): seq<string -> string> {
    [s => s, KebabCase, SnakeCase, CamelCase, PascalCase]
  }

  /** The position of the first mapper, in chain order, whose output is a registered name, or `|ms|`. */
  function MapperHit(ms: seq<string -> string>, st: CommandState, name: string): (k: nat)
    ensures k <= |ms|
    ensures forall j :: 0 <= j < k ==> !NameTaken(st.arguments, st.params, ms[j](name))
    ensures k < |ms| ==> NameTaken(st.arguments, st.params, ms[k](name))
    decreases |ms|
  {
    if ms == [] then 0
    else if NameTaken(st.arguments, st.params, ms[0](name)) then 0
    else 1 + MapperHit(ms[1..], st, name)
  }

  /**
   * One reflected handler parameter: one without a default is skipped; the
   * first mapped name that is registered decides, and a flag found there is
   * left alone; otherwise its default goes through `setDefault`, which takes
   * a string only. No registered mapped name is no change.
   */
  function ReflectDefault(st: CommandState, ms: seq<string -> string>, p: HandlerParameter): Result<CommandState> {
    if p.default.None? then Ok(st)
    else
      var k := MapperHit(ms, st, p.name);
      if k == |ms| || IsFlag(st, ms[k](p.name)) then Ok(st)
      else ChangeTarget(st, ms[k](p.name), DefaultChange(p.default.value))
  }

  /** The outer loop: stops at the first type error, keeping the defaults set before it. */
  function ReflectDefaults(st: CommandState, ms: seq<string -> string>, ps: seq<HandlerParameter>): (Outcome, CommandState)
    decreases |ps|
  {
    if ps == [] then (Pass, st)
    else
      match ReflectDefault(st, ms, ps[0])
      case Err(e) => (Fail(e), st)
      case Ok(next) => ReflectDefaults(next, ms, ps[1..])
  }

  /** `handler`: `setHandler`, which a namespace refuses, then the defaults of the handler's parameters. */
  function HandlerOn(st: CommandState, h: Callable, ms: seq<string -> string>): (Outcome, CommandState) {
    var after := SetOn(st, SetHandler(h));
    if after.0.Fail? then after else ReflectDefaults(after.1, ms, h.params)
  }

  /**
   * The parameter whose reflection throws: it has a default that is not a
   * string, and the first registered mapped name is not a flag.
   */
  predicate RejectsDefault(st: CommandState, ms: seq<string -> string>, p: HandlerParameter) {
    && p.default.Some? && !p.default.value.Str?
    && MapperHit(ms, st, p.name) < |ms|
    && !IsFlag(st, ms[MapperHit(ms, st, p.name)](p.name))
  }

  /**
   * A reflected default lands where a `defaults` entry under the mapped name
   * would put it, type error included; where that entry would throw on a
   * flag, reflection changes nothing.
   */
  lemma ReflectDefaultIsDefaultsEntry(st: CommandState, ms: seq<string -> string>, p: HandlerParameter)
    requires p.default.Some? && MapperHit(ms, st, p.name) < |ms|
    requires var n := ms[MapperHit(ms, st, p.name)](p.name); !(|n| >= 2 && n[0] == '-' && n[1] == '-')
    ensures var n := ms[MapperHit(ms, st, p.name)](p.name);
      var entry := ApplyChange(st, n, DefaultChange(p.default.value));
      && (!IsFlag(st, n) ==> ReflectDefault(st, ms, p) == entry)
      && (IsFlag(st, n) ==> ReflectDefault(st, ms, p) == Ok(st) && entry == Err(FlagRejects(DefaultSetting, n)))
  {
  }

  /**
   * The default is set on an argument or option when it is a string, is a
   * type error when it is not, and is never set on a flag.
   */
  lemma ReflectDefaultSets(st: CommandState, ms: seq<string -> string>, p: HandlerParameter)
    requires p.default.Some? && MapperHit(ms, st, p.name) < |ms|
    ensures var n := ms[MapperHit(ms, st, p.name)](p.name);
      var t := Lookup(st, n);
      var r := ReflectDefault(st, ms, p);
      && !t.Unregistered?
      && (IsFlag(st, n) ==> r == Ok(st))
      && (!IsFlag(st, n) && !p.default.value.Str? ==> r == Err(SetterTypeError(DefaultSetting, n)))
      && (t.ArgumentAt? && p.default.value.Str? ==>
            r.Ok? && r.value.params == st.params &&
            r.value.arguments == st.arguments[t.i := st.arguments[t.i].(default := Some(p.default.value.s))])
      && (t.ParamAt? && st.params[t.i].OptionValue? && p.default.value.Str? ==>
            r.Ok? && r.value.arguments == st.arguments &&
            r.value.params == st.params[t.i := OptionValue(st.params[t.i].option.(default := Some(p.default.value.s)))])
  {
    var n := ms[MapperHit(ms, st, p.name)](p.name);
    if ChangeTarget(st, n, DefaultChange(p.default.value)).Ok? {
      ChangeTargetSets(st, n, DefaultChange(p.default.value));
    }
  }

  lemma ReflectDefaultKeepsShape(st: CommandState, ms: seq<string -> string>, p: HandlerParameter)
    requires ReflectDefault(st, ms, p).Ok?
    ensures SameShape(st, ReflectDefault(st, ms, p).value)
  {
    if p.default.Some? {
      var k := MapperHit(ms, st, p.name);
      if k < |ms| && !IsFlag(st, ms[k](p.name)) {
        ChangeTargetTouchesOnlyTarget(st, ms[k](p.name), DefaultChange(p.default.value));
      }
    }
  }

  /** One parameter's reflection throws exactly when its default is rejected. */
  lemma ReflectDefaultFails(st: CommandState, ms: seq<string -> string>, p: HandlerParameter)
    ensures ReflectDefault(st, ms, p).Err? <==> RejectsDefault(st, ms, p)
  {
  }

  /** The mapper search reads nothing but the names. */
  lemma {:induction false} MapperHitSameNames(ms: seq<string -> string>, st: CommandState, st': CommandState, name: string)
    requires SameNames(st, st')
    ensures MapperHit(ms, st', name) == MapperHit(ms, st, name)
    decreases |ms|
  {
    if ms != [] {
      MapperHitSameNames(ms[1..], st, st', name);
    }
  }

  lemma RejectsDefaultSameNames(st: CommandState, st': CommandState, ms: seq<string -> string>, p: HandlerParameter)
    requires SameNames(st, st')
    ensures RejectsDefault(st', ms, p) == RejectsDefault(st, ms, p)
  {
    MapperHitSameNames(ms, st, st', p.name);
  }

  /** The handler's defaults fail exactly when one of its parameters' defaults is rejected. */
  lemma {:induction false} ReflectDefaultsFails(st: CommandState, ms: seq<string -> string>, ps: seq<HandlerParameter>)
    ensures ReflectDefaults(st, ms, ps).0.Fail? <==> exists i :: 0 <= i < |ps| && RejectsDefault(st, ms, ps[i])
    decreases |ps|
  {
    if ps != [] {
      ReflectDefaultFails(st, ms, ps[0]);
      var r := ReflectDefault(st, ms, ps[0]);
      if r.Ok? {
        ReflectDefaultKeepsShape(st, ms, ps[0]);
        ReflectDefaultsFails(r.value, ms, ps[1..]);
        forall i | 1 <= i < |ps|
          ensures RejectsDefault(r.value, ms, ps[i]) == RejectsDefault(st, ms, ps[i])
        {
          RejectsDefaultSameNames(st, r.value, ms, ps[i]);
        }
        if exists i :: 0 <= i < |ps| && RejectsDefault(st, ms, ps[i]) {
          var i :| 0 <= i < |ps| && RejectsDefault(st, ms, ps[i]);
          assert ps[1..][i - 1] == ps[i];
        }
      } else {
        assert RejectsDefault(st, ms, ps[0]);
      }
    }
  }

  /** Reflection keeps the shape, and so the command invariant, whether or not it fails. */
  lemma {:induction false} ReflectDefaultsKeepShape(st: CommandState, ms: seq<string -> string>, ps: seq<HandlerParameter>)
    ensures SameShape(st, ReflectDefaults(st, ms, ps).1)
    decreases |ps|
  {
    if ps != [] {
      var r := ReflectDefault(st, ms, ps[0]);
      if r.Ok? {
        ReflectDefaultKeepsShape(st, ms, ps[0]);
        ReflectDefaultsKeepShape(r.value, ms, ps[1..]);
      }
    }
  }

  /**
   * `handler` fails exactly on a namespace, changing nothing, or when a
   * handler parameter's default is rejected; otherwise, and also after a
   * rejected default, the callable is the handler. The invariant holds.
   */
  lemma HandlerOnResult(st: CommandState, h: Callable, ms: seq<string -> string>)
    ensures HandlerOn(st, h, ms).0.Fail? <==>
      st.isNamespace || exists i :: 0 <= i < |h.params| && RejectsDefault(st, ms, h.params[i])
    ensures st.isNamespace ==> HandlerOn(st, h, ms) == (Fail(NamespaceRestriction(SetHandlerOp)), st)
    ensures !st.isNamespace ==> HandlerOn(st, h, ms).1.fields == st.fields.(handler := Some(Callback(h)))
    ensures Good(st) ==> Good(HandlerOn(st, h, ms).1)
  {
    if !st.isNamespace {
      var withHandler := st.(fields := st.fields.(handler := Some(Callback(h))));
      assert SetOn(st, SetHandler(h)) == (Pass, withHandler);
      RejectsAfterSetHandler(st, withHandler, ms, h.params);
      ReflectDefaultsFails(withHandler, ms, h.params);
      ReflectDefaultsKeepShape(withHandler, ms, h.params);
      if Good(st) {
        StepKeepsGood(st, SetStep(SetHandler(h)));
        SameShapeKeepsGood(withHandler, ReflectDefaults(withHandler, ms, h.params).1);
      }
    }
  }

  /** Setting the handler leaves the names, so the same parameters are rejected. */
  lemma RejectsAfterSetHandler(st: CommandState, st': CommandState, ms: seq<string -> string>, ps: seq<HandlerParameter>)
    requires st'.arguments == st.arguments && st'.params == st.params
    ensures (exists i :: 0 <= i < |ps| && RejectsDefault(st', ms, ps[i])) <==>
      (exists i :: 0 <= i < |ps| && RejectsDefault(st, ms, ps[i]))
  {
    forall i | 0 <= i < |ps|
      ensures RejectsDefault(st', ms, ps[i]) == RejectsDefault(st, ms, ps[i])
    {
      RejectsDefaultSameNames(st, st', ms, ps[i]);
    }
  }

  // ---------------------------------------------------------------------------
  // The helpers on the descriptor objects

  /** The entries of `defaults`, `descriptions` and `options`, in the order of the PHP array. */
  function DefaultEntries(defaults: Assoc<string, Value>): (es: seq<(string, Change)>)
    ensures |es| == |defaults|
    ensures forall i :: 0 <= i < |es| ==> es[i] == (defaults[i].0, DefaultChange(defaults[i].1))
  {
    seq(|defaults|, i requires 0 <= i < |defaults| => (defaults[i].0, DefaultChange(defaults[i].1)))
  }

  function DescriptionEntries(descriptions: Assoc<string, Value>): (es: seq<(string, Change)>)
    ensures |es| == |descriptions|
    ensures forall i :: 0 <= i < |es| ==> es[i] == (descriptions[i].0, DescriptionChange(descriptions[i].1))
  {
    seq(|descriptions|, i requires 0 <= i < |descriptions| => (descriptions[i].0, DescriptionChange(descriptions[i].1)))
  }

  function OptionsEntries(options: Assoc<string, Value>): (es: seq<(string, Change)>)
    ensures |es| == |options|
    ensures forall i :: 0 <= i < |es| ==> es[i] == (options[i].0, OptionsChange(options[i].1))
  {
    seq(|options|, i requires 0 <= i < |options| => (options[i].0, OptionsChange(options[i].1)))
  }

  /** `descriptions`: the command's own description first, which even a namespace accepts. */
  function DescriptionsOn(st: CommandState, commandDescription: string, ds: Assoc<string, Value>): (Outcome, CommandState) {
    ApplyChanges(SetOn(st, SetDescription(commandDescription)).1, DescriptionEntries(ds))
  }

  /** The names of the descriptor objects, which never change. */
  function ArgumentObjectNames(args: seq<Argument>): (ns: seq<string>)
    ensures |ns| == |args| && forall k :: 0 <= k < |args| ==> ns[k] == args[k].name
  {
    seq(|args|, k requires 0 <= k < |args| => args[k].name)
  }

  function ParamObjectNames(ps: seq<Param>): (ns: seq<string>)
    ensures |ns| == |ps| && forall k :: 0 <= k < |ps| ==> ns[k] == ps[k].Name()
  {
    seq(|ps|, k requires 0 <= k < |ps| => ps[k].Name())
  }

  lemma ObjectNamesAreStateNames(args: seq<Argument>, ps: seq<Param>)
    ensures ArgumentNames(ArgumentSpecsOf(args)) == ArgumentObjectNames(args)
    ensures ParamNames(ParamSpecsOf(ps)) == ParamObjectNames(ps)
  {
    var a := ParamNames(ParamSpecsOf(ps));
    forall k | 0 <= k < |ps|
      ensures a[k] == ParamObjectNames(ps)[k]
    {
      assert ParamSpecsOf(ps)[k] == ps[k].Spec();
    }
  }

  /**
   * The command invariant makes the names of its descriptor objects
   * distinct. The helpers need no more than that, which holds of every
   * command: `add*` refuses a taken name, and a descriptor's name never
   * changes.
   */
  lemma GoodObjectNames(command: Command)
    requires Good(command.State())
    ensures Distinct(ArgumentObjectNames(command.arguments)) && Distinct(ParamObjectNames(command.options))
  {
    ObjectNamesAreStateNames(command.arguments, command.options);
  }

  /** The descriptor objects of each map have distinct names. */
  predicate DistinctObjectNames(command: Command)
    reads command
  {
    Distinct(ArgumentObjectNames(command.arguments)) && Distinct(ParamObjectNames(command.options))
  }

  /** Distinct names make distinct descriptor objects. */
  lemma ArgumentObjectsDistinct(args: seq<Argument>, i: nat)
    requires i < |args| && Distinct(ArgumentObjectNames(args))
    ensures forall k :: 0 <= k < |args| && k != i ==> args[k] != args[i]
  {
    var ns := ArgumentObjectNames(args);
    forall k | 0 <= k < |args| && k != i
      ensures args[k] != args[i]
    {
      if k < i {
        assert ns[k] != ns[i];
      } else {
        assert ns[i] != ns[k];
      }
    }
  }

  lemma ParamObjectsDistinct(ps: seq<Param>, i: nat)
    requires i < |ps| && Distinct(ParamObjectNames(ps))
    ensures forall k :: 0 <= k < |ps| && k != i ==> ps[k].Obj() != ps[i].Obj()
  {
    var ns := ParamObjectNames(ps);
    forall k | 0 <= k < |ps| && k != i
      ensures ps[k].Obj() != ps[i].Obj()
    {
      if k < i {
        assert ns[k] != ns[i];
      } else {
        assert ns[i] != ns[k];
      }
    }
  }

  /** The objects of all positions but `i`. */
  function ArgumentsExcept(args: seq<Argument>, i: nat): set<Argument> {
    set k | 0 <= k < |args| && k != i :: args[k]
  }

  function ParamObjectsExcept(ps: seq<Param>, i: nat): set<object> {
    set k | 0 <= k < |ps| && k != i :: ps[k].Obj()
  }

  /**
   * After the object at one position changed, the specs differ in that
   * position only. The sequence and the position travel as one pair.
   */
  twostate lemma ArgumentSpecsAfterSet(at: (seq<Argument>, nat))
    requires at.1 < |at.0|
    requires unchanged(ArgumentsExcept(at.0, at.1))
    ensures ArgumentSpecsOf(at.0) == old(ArgumentSpecsOf(at.0))[at.1 := at.0[at.1].Spec()]
  {
    var now := ArgumentSpecsOf(at.0);
    var before := old(ArgumentSpecsOf(at.0));
    forall k | 0 <= k < |at.0| && k != at.1
      ensures now[k] == before[k]
    {
      assert at.0[k] in ArgumentsExcept(at.0, at.1);
    }
  }

  twostate lemma ParamSpecsAfterSet(at: (seq<Param>, nat))
    requires at.1 < |at.0|
    requires unchanged(ParamObjectsExcept(at.0, at.1))
    ensures ParamSpecsOf(at.0) == old(ParamSpecsOf(at.0))[at.1 := at.0[at.1].Spec()]
  {
    var now := ParamSpecsOf(at.0);
    var before := old(ParamSpecsOf(at.0));
    forall k | 0 <= k < |at.0| && k != at.1
      ensures now[k] == before[k]
    {
      assert at.0[k].Obj() in ParamObjectsExcept(at.0, at.1);
      assert old(at.0[k].Spec()) == at.0[k].Spec();
    }
  }

  /** One argument object changed through its own setter. */
  method SetArgumentIn(args: seq<Argument>, i: nat, s: ArgumentSetter)
    requires i < |args| && Distinct(ArgumentObjectNames(args))
    modifies args[i]
    ensures ArgumentSpecsOf(args) == old(ArgumentSpecsOf(args))[i := ApplyArgumentSetter(old(args[i].Spec()), s)]
  {
    ArgumentObjectsDistinct(args, i);
    args[i].Set(s);
    ArgumentSpecsAfterSet((args, i));
  }

  /** One flag or option object changed through its own setter; a flag only takes a description. */
  method SetParamIn(ps: seq<Param>, i: nat, c: Change)
    requires i < |ps| && Distinct(ParamObjectNames(ps))
    requires WellTyped(c) && (ps[i].FlagParam? ==> c.DescriptionChange?)
    modifies ps[i].Obj()
    ensures ParamSpecsOf(ps) == old(ParamSpecsOf(ps))[i := ChangeParam(old(ps[i].Spec()), c)]
  {
    ParamObjectsDistinct(ps, i);
    if ps[i].FlagParam? {
      ps[i].flag.SetDescription(c.description.s);
    } else {
      ps[i].option.Set(OptionChange(c));
    }
    ParamSpecsAfterSet((ps, i));
  }

  /** A command's argument changed in place. */
  method ChangeArgumentOf(command: Command, i: nat, s: ArgumentSetter)
    requires i < |command.arguments| && Distinct(ArgumentObjectNames(command.arguments))
    modifies command.arguments[i]
    ensures var st := old(command.State());
      command.State() == st.(arguments := st.arguments[i := ApplyArgumentSetter(st.arguments[i], s)])
  {
    SetArgumentIn(command.arguments, i, s);
    StateOfArguments(command);
  }

  /** A command whose flags and options are untouched differs at most in its arguments. */
  twostate lemma StateOfArguments(command: Command)
    requires unchanged(command) && unchanged(FlagObjects(command.options)) && unchanged(OptionObjects(command.options))
    ensures command.State() == old(command.State()).(arguments := ArgumentSpecsOf(command.arguments))
  {
    ParamSpecsFramed(command.options);
  }

  /** A command whose arguments are untouched differs at most in its flags and options. */
  twostate lemma StateOfParams(command: Command)
    requires unchanged(command) && unchanged(command.arguments)
    ensures command.State() == old(command.State()).(params := ParamSpecsOf(command.options))
  {
    ArgumentSpecsFramed(command.arguments);
  }

  /** A command's flag or option changed in place. */
  method ChangeParamOf(command: Command, i: nat, c: Change)
    requires i < |command.options| && Distinct(ParamObjectNames(command.options))
    requires WellTyped(c) && (command.options[i].FlagParam? ==> c.DescriptionChange?)
    modifies command.options[i].Obj()
    ensures var st := old(command.State());
      command.State() == st.(params := st.params[i := ChangeParam(st.params[i], c)])
  {
    ghost var changed := command.options[i];
    NoArgumentIsParam(changed, command.arguments);
    SetParamIn(command.options, i, c);
    StateOfParams(command);
  }

  /** Arguments and flag or option objects are distinct objects. */
  lemma NoArgumentIsParam(p: Param, args: seq<Argument>)
    ensures forall a :: a in args ==> a != p.Obj()
  {
  }

  /**
   * The lookup and the update of one stripped name on the command's
   * descriptors: the argument, flag or option found is changed through its
   * own setter.
   */
  method ChangeTargetOn(command: Command, name: string, c: Change) returns (o: Outcome)
    requires DistinctObjectNames(command)
    modifies command.arguments, FlagObjects(command.options), OptionObjects(command.options)
    ensures (o, command.State()) == AsStep(ChangeTarget(old(command.State()), name, c), old(command.State()))
  {
    var t := Lookup(command.State(), name);
    if t.Unregistered? {
      return Fail(UnregisteredParameter(SettingOf(c), name));
    } else if t.ParamAt? {
      if command.options[t.i].FlagParam? && !c.DescriptionChange? {
        return Fail(FlagRejects(SettingOf(c), name));
      }
      if !WellTyped(c) {
        return Fail(SetterTypeError(SettingOf(c), name));
      }
      assert command.options[t.i] in command.options;
      ChangeParamOf(command, t.i, c);
    } else {
      if !WellTyped(c) {
        return Fail(SetterTypeError(SettingOf(c), name));
      }
      ChangeArgumentOf(command, t.i, ArgumentChange(c));
    }
    o := Pass;
  }

  /** One entry of `defaults`, `descriptions` or `options`. */
  method ApplyChangeOn(command: Command, param: string, c: Change) returns (o: Outcome)
    requires DistinctObjectNames(command)
    modifies command.arguments, FlagObjects(command.options), OptionObjects(command.options)
    ensures (o, command.State()) == AsStep(ApplyChange(old(command.State()), param, c), old(command.State()))
  {
    if !PassesArrayCheck(c) {
      return Fail(OptionsNotAnArray);
    }
    o := ChangeTargetOn(command, StripDashes(param), c);
  }

  /** The `foreach` over the entries, which stops at the first exception. */
  method ApplyChangesOn(command: Command, entries: seq<(string, Change)>) returns (o: Outcome)
    requires DistinctObjectNames(command)
    modifies command.arguments, FlagObjects(command.options), OptionObjects(command.options)
    ensures (o, command.State()) == ApplyChanges(old(command.State()), entries)
  {
    ghost var goal := ApplyChanges(command.State(), entries);
    var i := 0;
    while i < |entries|
      invariant 0 <= i <= |entries|
      invariant ApplyChanges(command.State(), entries[i..]) == goal
    {
      assert entries[i..][0] == entries[i] && entries[i..][1..] == entries[i + 1..];
      var r := ApplyChangeOn(command, entries[i].0, entries[i].1);
      if r.Fail? {
        return r;
      }
      i := i + 1;
    }
    o := Pass;
  }

  /** One reflected handler parameter: the mapper loop, left at the first registered name. */
  method ReflectDefaultOn(command: Command, ms: seq<string -> string>, p: HandlerParameter) returns (o: Outcome)
    requires DistinctObjectNames(command)
    modifies command.arguments, FlagObjects(command.options), OptionObjects(command.options)
    ensures (o, command.State()) == AsStep(ReflectDefault(old(command.State()), ms, p), old(command.State()))
  {
    o := Pass;
    if p.default.Some? {
      var k := FindMapped(ms, command.State(), p.name);
      if k < |ms| {
        o := SetReflectedDefault(command, ms, p, k);
      }
    }
  }

  /** `setDefault` on the descriptor the first registered mapped name selects, unless it is a flag. */
  method SetReflectedDefault(command: Command, ms: seq<string -> string>, p: HandlerParameter, k: nat) returns (o: Outcome)
    requires p.default.Some? && k == MapperHit(ms, command.State(), p.name) && k < |ms|
    requires DistinctObjectNames(command)
    modifies command.arguments, FlagObjects(command.options), OptionObjects(command.options)
    ensures (o, command.State()) == AsStep(ReflectDefault(old(command.State()), ms, p), old(command.State()))
  {
    var realName := ms[k](p.name);
    if IsFlag(command.State(), realName) {
      return Pass;
    }
    o := ChangeTargetOn(command, realName, DefaultChange(p.default.value));
  }

  /** The mapper loop, left at the first mapped name that is registered. */
  method FindMapped(ms: seq<string -> string>, st: CommandState, name: string) returns (k: nat)
    ensures k == MapperHit(ms, st, name)
  {
    k := 0;
    while k < |ms|
      invariant 0 <= k <= |ms|
      invariant forall j :: 0 <= j < k ==> !NameTaken(st.arguments, st.params, ms[j](name))
    {
      if Lookup(st, ms[k](name)).Unregistered? {
        k := k + 1;
      } else {
        assert MapperHit(ms, st, name) == k;
        return;
      }
    }
    assert MapperHit(ms, st, name) == k;
  }

  /** The outer loop of `setHandlerDefaultsViaReflection`, over the handler's parameters. */
  method ReflectDefaultsOn(command: Command, ms: seq<string -> string>, ps: seq<HandlerParameter>) returns (o: Outcome)
    requires DistinctObjectNames(command)
    modifies command.arguments, FlagObjects(command.options), OptionObjects(command.options)
    ensures (o, command.State()) == ReflectDefaults(old(command.State()), ms, ps)
  {
    ghost var goal := ReflectDefaults(command.State(), ms, ps);
    var n := 0;
    while n < |ps|
      invariant 0 <= n <= |ps|
      invariant ReflectDefaults(command.State(), ms, ps[n..]) == goal
    {
      assert ps[n..][0] == ps[n] && ps[n..][1..] == ps[n + 1..];
      var r := ReflectDefaultOn(command, ms, ps[n]);
      if r.Fail? {
        return r;
      }
      n := n + 1;
    }
    o := Pass;
  }

  /** `descriptions`: the command's description, then the parameters'. */
  method DescriptionsOnCommand(command: Command, commandDescription: string, ds: Assoc<string, Value>) returns (o: Outcome)
    requires DistinctObjectNames(command)
    modifies command, command.arguments, FlagObjects(command.options), OptionObjects(command.options)
    ensures (o, command.State()) == DescriptionsOn(old(command.State()), commandDescription, ds)
    ensures command.parent == old(command.parent) && command.arguments == old(command.arguments) && command.options == old(command.options)
  {
    var described := command.Set(SetDescription(commandDescription));
    o := ApplyChangesOn(command, DescriptionEntries(ds));
  }

  /** `handler`: `setHandler`, then the defaults read off the handler's parameters. */
  method HandlerOnCommand(command: Command, h: Callable, ms: seq<string -> string>) returns (o: Outcome)
    requires DistinctObjectNames(command)
    modifies command, command.arguments, FlagObjects(command.options), OptionObjects(command.options)
    ensures (o, command.State()) == HandlerOn(old(command.State()), h, ms)
    ensures command.parent == old(command.parent) && command.arguments == old(command.arguments) && command.options == old(command.options)
  {
    o := command.Set(SetHandler(h));
    if o.Fail? {
      return;
    }
    // getHandler now returns the callable just set, and a callable passes is_callable.
    o := ReflectDefaultsOn(command, ms, h.params);
  }

  // ---------------------------------------------------------------------------
  // The two helper classes

  /**
   * A fluent helper wrapping one `Command`: it sets the command's callbacks,
   * usage and `when`, and the defaults, descriptions and options of its
   * descriptors by name.
   */
  class CommandAdditionHelper {
    const command: Command

    constructor (command: Command)
      ensures this.command == command
    {
      this.command := command;
    }

    method After(callback: Callable) returns (o: Outcome)
      modifies command
      ensures (o, command.State()) == SetOn(old(command.State()), SetAfterInvokeCallback(callback))
      ensures command.parent == old(command.parent) && command.arguments == old(command.arguments) && command.options == old(command.options)
    {
      o := command.Set(SetAfterInvokeCallback(callback));
    }

    method Before(callback: Callable) returns (o: Outcome)
      modifies command
      ensures (o, command.State()) == SetOn(old(command.State()), SetBeforeInvokeCallback(callback))
      ensures command.parent == old(command.parent) && command.arguments == old(command.arguments) && command.options == old(command.options)
    {
      o := command.Set(SetBeforeInvokeCallback(callback));
    }

    method Defaults(defaults: Assoc<string, Value>) returns (o: Outcome)
      requires DistinctObjectNames(command)
      modifies command.arguments, FlagObjects(command.options), OptionObjects(command.options)
      ensures (o, command.State()) == ApplyChanges(old(command.State()), DefaultEntries(defaults))
      ensures command.parent == old(command.parent) && command.arguments == old(command.arguments) && command.options == old(command.options)
    {
      o := ApplyChangesOn(command, DefaultEntries(defaults));
    }

    method Descriptions(commandDescription: string, paramDescriptions: Assoc<string, Value>) returns (o: Outcome)
      requires DistinctObjectNames(command)
      modifies command, command.arguments, FlagObjects(command.options), OptionObjects(command.options)
      ensures (o, command.State()) == DescriptionsOn(old(command.State()), commandDescription, paramDescriptions)
      ensures command.parent == old(command.parent) && command.arguments == old(command.arguments) && command.options == old(command.options)
    {
      o := DescriptionsOnCommand(command, commandDescription, paramDescriptions);
    }

    method Options(options: Assoc<string, Value>) returns (o: Outcome)
      requires DistinctObjectNames(command)
      modifies command.arguments, FlagObjects(command.options), OptionObjects(command.options)
      ensures (o, command.State()) == ApplyChanges(old(command.State()), OptionsEntries(options))
      ensures command.parent == old(command.parent) && command.arguments == old(command.arguments) && command.options == old(command.options)
    {
      o := ApplyChangesOn(command, OptionsEntries(options));
    }

    method Usage(usage: string) returns (o: Outcome)
      modifies command
      ensures (o, command.State()) == SetOn(old(command.State()), SetUsage(usage))
      ensures command.parent == old(command.parent) && command.arguments == old(command.arguments) && command.options == old(command.options)
    {
      o := command.Set(SetUsage(usage));
    }

    method When(when: string) returns (o: Outcome)
      modifies command
      ensures (o, command.State()) == SetOn(old(command.State()), SetWhen(when))
      ensures command.parent == old(command.parent) && command.arguments == old(command.arguments) && command.options == old(command.options)
    {
      o := command.Set(SetWhen(when));
    }
  }

  /**
   * A fluent helper wrapping one `Command`, with the same setters as
   * `CommandAdditionHelper`, plus `handler`, which sets the handler and
   * copies its parameters' defaults onto the descriptors the name mappers find.
   */
  class ParsedCommandHelper {
    const command: Command
    var mappers: seq<string -> string>

    /** No mappers select the default chain. */
    constructor (command: Command, parameterNameMappers: seq<string -> string>)
      ensures this.command == command
      ensures parameterNameMappers != [] ==> SameChain(mappers, parameterNameMappers)
      ensures parameterNameMappers == [] ==> SameChain(mappers, DefaultMappers())
    {
      this.command := command;
      mappers := if parameterNameMappers != [] then parameterNameMappers else DefaultMappers();
    }

    method After(callback: Callable) returns (o: Outcome)
      modifies command
      ensures (o, command.State()) == SetOn(old(command.State()), SetAfterInvokeCallback(callback))
      ensures command.parent == old(command.parent) && command.arguments == old(command.arguments) && command.options == old(command.options)
    {
      o := command.Set(SetAfterInvokeCallback(callback));
    }

    method Before(callback: Callable) returns (o: Outcome)
      modifies command
      ensures (o, command.State()) == SetOn(old(command.State()), SetBeforeInvokeCallback(callback))
      ensures command.parent == old(command.parent) && command.arguments == old(command.arguments) && command.options == old(command.options)
    {
      o := command.Set(SetBeforeInvokeCallback(callback));
    }

    method Defaults(defaults: Assoc<string, Value>) returns (o: Outcome)
      requires DistinctObjectNames(command)
      modifies command.arguments, FlagObjects(command.options), OptionObjects(command.options)
      ensures (o, command.State()) == ApplyChanges(old(command.State()), DefaultEntries(defaults))
      ensures command.parent == old(command.parent) && command.arguments == old(command.arguments) && command.options == old(command.options)
    {
      o := ApplyChangesOn(command, DefaultEntries(defaults));
    }

    method Descriptions(commandDescription: string, paramDescriptions: Assoc<string, Value>) returns (o: Outcome)
      requires DistinctObjectNames(command)
      modifies command, command.arguments, FlagObjects(command.options), OptionObjects(command.options)
      ensures (o, command.State()) == DescriptionsOn(old(command.State()), commandDescription, paramDescriptions)
      ensures command.parent == old(command.parent) && command.arguments == old(command.arguments) && command.options == old(command.options)
    {
      o := DescriptionsOnCommand(command, commandDescription, paramDescriptions);
    }

    method Handler(handler: Callable) returns (o: Outcome)
      requires DistinctObjectNames(command)
      modifies command, command.arguments, FlagObjects(command.options), OptionObjects(command.options)
      ensures (o, command.State()) == HandlerOn(old(command.State()), handler, mappers)
      ensures command.parent == old(command.parent) && command.arguments == old(command.arguments) && command.options == old(command.options)
    {
      o := HandlerOnCommand(command, handler, mappers);
    }

    method Options(options: Assoc<string, Value>) returns (o: Outcome)
      requires DistinctObjectNames(command)
      modifies command.arguments, FlagObjects(command.options), OptionObjects(command.options)
      ensures (o, command.State()) == ApplyChanges(old(command.State()), OptionsEntries(options))
      ensures command.parent == old(command.parent) && command.arguments == old(command.arguments) && command.options == old(command.options)
    {
      o := ApplyChangesOn(command, OptionsEntries(options));
    }

    method Usage(usage: string) returns (o: Outcome)
      modifies command
      ensures (o, command.State()) == SetOn(old(command.State()), SetUsage(usage))
      ensures command.parent == old(command.parent) && command.arguments == old(command.arguments) && command.options == old(command.options)
    {
      o := command.Set(SetUsage(usage));
    }

    method When(when: string) returns (o: Outcome)
      modifies command
      ensures (o, command.State()) == SetOn(old(command.State()), SetWhen(when))
      ensures command.parent == old(command.parent) && command.arguments == old(command.arguments) && command.options == old(command.options)
    {
      o := command.Set(SetWhen(when));
    }
  }
}
