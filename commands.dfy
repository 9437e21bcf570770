/**
 * Commands (src/Command.php) and namespace commands (src/NamespaceCommand.php).
 *
 * A command holds an ordered map of arguments and an ordered map of flags and
 * options; both are keyed by parameter name and share one name space. Since
 * a second entry under a used name is refused, both maps only ever grow at
 * the end, so they are sequences of descriptor objects here.
 *
 * What every operation does is specified on `CommandState`, the command read
 * into a value, by `Step`; the `Command` class is proved to follow it.
 */
module Commands {
  import opened Wrappers
  import opened Parameters
  import opened PhpArrays

  // ---------------------------------------------------------------------------
  // Handlers and callbacks

  /** One parameter of a callable, as reflection reports it: its name and its default value, if any. */
  datatype HandlerParameter = HandlerParameter(name: string, default: Option<Value>)

  /** A PHP callable, identified by `id`, with its reflected parameter list. */
  datatype Callable = Callable(id: string, params: seq<HandlerParameter>)

  /** What `getHandler` returns: a callable, or the class name marking a namespace. */
  datatype Handler = Callback(callable: Callable) | NamespaceMarker

  // ---------------------------------------------------------------------------
  // Names of the parameters and the command invariant

  function ArgumentNames(args: seq<ArgumentSpec>): (ns: seq<string>)
    ensures |ns| == |args|
    ensures forall i :: 0 <= i < |args| ==> ns[i] == args[i].name
  {
    if args == [] then [] else [args[0].name] + ArgumentNames(args[1..])
  }

  function ParamNames(ps: seq<ParamSpec>): (ns: seq<string>)
    ensures |ns| == |ps|
    ensures forall i :: 0 <= i < |ps| ==> ns[i] == ps[i].Name()
  {
    if ps == [] then [] else [ps[0].Name()] + ParamNames(ps[1..])
  }

  /** `hasParameter`: the name is a key of the argument map or of the option map. */
  predicate NameTaken(args: seq<ArgumentSpec>, ps: seq<ParamSpec>, name: string) {
    name in ArgumentNames(args) || name in ParamNames(ps)
  }

  predicate Distinct(s: seq<string>) {
    forall i, j :: 0 <= i < j < |s| ==> s[i] != s[j]
  }

  /**
   * The invariant every successful `add*` keeps: names are unique across
   * arguments, flags and options; only the last argument may repeat; no
   * required argument follows an optional one.
   */
  predicate WellFormed(args: seq<ArgumentSpec>, ps: seq<ParamSpec>) {
    && Distinct(ArgumentNames(args))
    && Distinct(ParamNames(ps))
    && (forall n :: n in ArgumentNames(args) ==> n !in ParamNames(ps))
    && (forall i :: 0 <= i < |args| - 1 ==> !args[i].repeating)
    && (forall i, j :: 0 <= i < j < |args| && args[i].optional ==> args[j].optional)
  }

  /** The checks of `addArgument`, in the order the source makes them. */
  function CheckArgument(args: seq<ArgumentSpec>, ps: seq<ParamSpec>, a: ArgumentSpec): (o: Outcome)
    ensures o.Pass? <==>
      && !NameTaken(args, ps, a.name)
      && (args != [] ==> !args[|args| - 1].repeating && (args[|args| - 1].optional ==> a.optional))
    ensures NameTaken(args, ps, a.name) ==> o == Fail(DuplicateParameter(ArgumentKind, a.name))
    ensures !NameTaken(args, ps, a.name) && args != [] && args[|args| - 1].repeating
      ==> o == Fail(ArgumentAfterRepeating)
    ensures o == Fail(RequiredArgumentAfterOptional) ==>
      args != [] && args[|args| - 1].optional && !a.optional
  {
    if NameTaken(args, ps, a.name) then Fail(DuplicateParameter(ArgumentKind, a.name))
    else if args != [] && args[|args| - 1].repeating then Fail(ArgumentAfterRepeating)
    else if args != [] && args[|args| - 1].optional && !a.optional then Fail(RequiredArgumentAfterOptional)
    else Pass
  }

  lemma {:induction false} DistinctAppend(s: seq<string>, x: string)
    requires Distinct(s) && x !in s
    ensures Distinct(s + [x])
  {
    var t := s + [x];
    forall i, j | 0 <= i < j < |t|
      ensures t[i] != t[j]
    {
      if j < |s| {
        assert t[i] == s[i] && t[j] == s[j];
      } else {
        assert t[j] == x && t[i] == s[i];
      }
    }
  }

  lemma ArgumentNamesAppend(args: seq<ArgumentSpec>, a: ArgumentSpec)
    ensures ArgumentNames(args + [a]) == ArgumentNames(args) + [a.name]
  {
    assert forall i :: 0 <= i < |args| ==> (args + [a])[i] == args[i];
  }

  lemma ParamNamesAppend(ps: seq<ParamSpec>, p: ParamSpec)
    ensures ParamNames(ps + [p]) == ParamNames(ps) + [p.Name()]
  {
    assert forall i :: 0 <= i < |ps| ==> (ps + [p])[i] == ps[i];
  }

  /** A successful `addArgument` keeps the invariant. */
  lemma AddArgumentKeepsWellFormed(args: seq<ArgumentSpec>, ps: seq<ParamSpec>, a: ArgumentSpec)
    requires WellFormed(args, ps)
    requires CheckArgument(args, ps, a).Pass?
    ensures WellFormed(args + [a], ps)
  {
    var t := args + [a];
    ArgumentNamesAppend(args, a);
    DistinctAppend(ArgumentNames(args), a.name);
    forall i | 0 <= i < |t| - 1
      ensures !t[i].repeating
    {
      assert t[i] == args[i];
    }
    forall i, j | 0 <= i < j < |t| && t[i].optional
      ensures t[j].optional
    {
      if j == |args| {
        assert t[i] == args[i];
      }
    }
  }

  /** A successful `addFlag` or `addOption` keeps the invariant. */
  lemma AddParamKeepsWellFormed(args: seq<ArgumentSpec>, ps: seq<ParamSpec>, p: ParamSpec)
    requires WellFormed(args, ps)
    requires !NameTaken(args, ps, p.Name())
    ensures WellFormed(args, ps + [p])
  {
    ParamNamesAppend(ps, p);
    DistinctAppend(ParamNames(ps), p.Name());
  }

  // ---------------------------------------------------------------------------
  // The command as a value, and what each operation does to it

  /** Every field besides the parameter maps and the parent. */
  datatype CommandFields = CommandFields(
    name: Option<string>,
    description: Option<string>,
    usage: Option<string>,
    when: Option<string>,
    acceptArbitraryOptions: bool,
    handler: Option<Handler>,
    beforeInvoke: Option<Callable>,
    afterInvoke: Option<Callable>)

  const NewCommandFields := CommandFields(None, None, None, None, false, None, None, None)

  /** A new namespace command: its name, its description and the namespace marker as handler, nothing else. */
  function NamespaceState(name: string, description: string): CommandState {
    CommandState(true, NewCommandFields.(
      name := Some(name), description := Some(description), handler := Some(NamespaceMarker)), [], [])
  }

  datatype CommandState = CommandState(
    isNamespace: bool,
    fields: CommandFields,
    arguments: seq<ArgumentSpec>,
    params: seq<ParamSpec>)

  /** The simple setters of a command. */
  datatype CommandSetter =
    | SetAcceptArbitraryOptions(accept: bool)
    | SetAfterInvokeCallback(afterInvoke: Callable)
    | SetBeforeInvokeCallback(beforeInvoke: Callable)
    | SetDescription(description: string)
    | SetHandler(handler: Callable)
    | SetName(name: string)
    | SetUsage(usage: string)
    | SetWhen(when: string)

  function ApplySetter(f: CommandFields, s: CommandSetter): CommandFields {
    match s
    case SetAcceptArbitraryOptions(b) => f.(acceptArbitraryOptions := b)
    case SetAfterInvokeCallback(c) => f.(afterInvoke := Some(c))
    case SetBeforeInvokeCallback(c) => f.(beforeInvoke := Some(c))
    case SetDescription(d) => f.(description := Some(d))
    case SetHandler(c) => f.(handler := Some(Callback(c)))
    case SetName(n) => f.(name := Some(n))
    case SetUsage(u) => f.(usage := Some(u))
    case SetWhen(w) => f.(when := Some(w))
  }

  /** The setter overrides of NamespaceCommand: every setter but the description and usage ones throws. */
  function NamespaceRefusal(s: CommandSetter): (r: Option<NamespaceOperation>)
    ensures r.None? <==> s.SetDescription? || s.SetUsage?
  {
    match s
    case SetAcceptArbitraryOptions(_) => Some(AcceptArbitraryOptionsOp)
    case SetAfterInvokeCallback(_) => Some(SetAfterInvokeOp)
    case SetBeforeInvokeCallback(_) => Some(SetBeforeInvokeOp)
    case SetDescription(_) => None
    case SetHandler(_) => Some(SetHandlerOp)
    case SetName(_) => Some(SetNameOp)
    case SetUsage(_) => None
    case SetWhen(_) => Some(SetWhenOp)
  }

  datatype CommandStep =
    | AddArgumentStep(argument: ArgumentSpec)
    | AddFlagStep(flag: FlagSpec)
    | AddOptionStep(option: OptionSpec)
    | SetStep(setter: CommandSetter)

  /** `addArgument`, and the namespace override that always throws. */
  function AddArgumentTo(st: CommandState, a: ArgumentSpec): (Outcome, CommandState) {
    if st.isNamespace then (Fail(NamespaceRestriction(AddArgumentOp)), st)
    else
      var o := CheckArgument(st.arguments, st.params, a);
      (o, if o.Pass? then st.(arguments := st.arguments + [a]) else st)
  }

  /** `addFlag` and `addOption`, and their namespace overrides. */
  function AddParamTo(st: CommandState, p: ParamSpec): (Outcome, CommandState) {
    var kind := if p.FlagValue? then FlagKind else OptionKind;
    if st.isNamespace then (Fail(NamespaceRestriction(if p.FlagValue? then AddFlagOp else AddOptionOp)), st)
    else if NameTaken(st.arguments, st.params, p.Name()) then (Fail(DuplicateParameter(kind, p.Name())), st)
    else (Pass, st.(params := st.params + [p]))
  }

  /** The simple setters, and the namespace overrides that throw. */
  function SetOn(st: CommandState, s: CommandSetter): (Outcome, CommandState) {
    if st.isNamespace && NamespaceRefusal(s).Some? then (Fail(NamespaceRestriction(NamespaceRefusal(s).value)), st)
    else (Pass, st.(fields := ApplySetter(st.fields, s)))
  }

  /** What one operation returns and the state it leaves. */
  function Step(st: CommandState, op: CommandStep): (Outcome, CommandState) {
    match op
    case AddArgumentStep(a) => AddArgumentTo(st, a)
    case AddFlagStep(f) => AddParamTo(st, FlagValue(f))
    case AddOptionStep(o) => AddParamTo(st, OptionValue(o))
    case SetStep(s) => SetOn(st, s)
  }

  /** What a namespace command always looks like. */
  predicate Frozen(st: CommandState) {
    st.isNamespace ==>
      && st.arguments == [] && st.params == []
      && !st.fields.acceptArbitraryOptions
      && st.fields.handler == Some(NamespaceMarker)
      && st.fields.when == None
      && st.fields.beforeInvoke == None && st.fields.afterInvoke == None
  }

  predicate Good(st: CommandState) {
    WellFormed(st.arguments, st.params) && Frozen(st)
  }

  /**
   * Each operation either fails and changes nothing, or succeeds and keeps
   * the invariant; an add that succeeds appends exactly one entry and touches
   * nothing else.
   */
  lemma StepKeepsGood(st: CommandState, op: CommandStep)
    requires Good(st)
    ensures Step(st, op).0.Fail? ==> Step(st, op).1 == st
    ensures Good(Step(st, op).1)
    ensures op.AddArgumentStep? && Step(st, op).0.Pass? ==>
      Step(st, op).1 == st.(arguments := st.arguments + [op.argument])
    ensures op.AddFlagStep? && Step(st, op).0.Pass? ==>
      Step(st, op).1 == st.(params := st.params + [FlagValue(op.flag)])
    ensures op.AddOptionStep? && Step(st, op).0.Pass? ==>
      Step(st, op).1 == st.(params := st.params + [OptionValue(op.option)])
  {
    match op
    case AddArgumentStep(a) =>
      if !st.isNamespace && CheckArgument(st.arguments, st.params, a).Pass? {
        AddArgumentKeepsWellFormed(st.arguments, st.params, a);
      }
    case AddFlagStep(f) =>
      if !st.isNamespace && !NameTaken(st.arguments, st.params, f.name) {
        AddParamKeepsWellFormed(st.arguments, st.params, FlagValue(f));
      }
    case AddOptionStep(o) =>
      if !st.isNamespace && !NameTaken(st.arguments, st.params, o.name) {
        AddParamKeepsWellFormed(st.arguments, st.params, OptionValue(o));
      }
    case SetStep(s) =>
  }

  function Run(st: CommandState, ops: seq<CommandStep>): CommandState
    decreases |ops|
  {
    if ops == [] then st else Run(Step(st, ops[0]).1, ops[1..])
  }

  /**
   * Whatever a caller does to a command, the invariant holds throughout, and
   * a namespace command never acquires a parameter, a handler, `when` or a
   * callback.
   */
  lemma {:induction false} RunKeepsGood(st: CommandState, ops: seq<CommandStep>)
    requires Good(st)
    ensures Good(Run(st, ops))
    ensures st.isNamespace ==> Run(st, ops).arguments == [] && Run(st, ops).params == []
    decreases |ops|
  {
    if ops != [] {
      StepKeepsGood(st, ops[0]);
      RunKeepsGood(Step(st, ops[0]).1, ops[1..]);
    }
  }

  /** On a namespace command every add and every setter but description and usage fails. */
  lemma NamespaceRefusesMutators(st: CommandState, op: CommandStep)
    requires st.isNamespace
    ensures Step(st, op).0.Pass? <==> op.SetStep? && (op.setter.SetDescription? || op.setter.SetUsage?)
  {
  }

  // ---------------------------------------------------------------------------
  // Synopsis

  /** `array_map(getSynopsis, $this->arguments)`: the first failure propagates. */
  function ArgumentSynopses(args: seq<ArgumentSpec>): (r: Result<seq<SynopsisEntry>>)
    ensures r.Ok? <==> forall i :: 0 <= i < |args| ==> ArgumentIsValid(args[i])
    ensures r.Ok? ==> (|r.value| == |args|
      && forall i :: 0 <= i < |args| ==> r.value[i] == ArgumentSynopsis(args[i]).value)
  {
    if args == [] then Ok([])
    else
      match ArgumentSynopsis(args[0])
      case Err(e) => Err(e)
      case Ok(s) =>
        match ArgumentSynopses(args[1..])
        case Err(e) => Err(e)
        case Ok(rest) => Ok([s] + rest)
  }

  /** The error is that of the first invalid argument. */
  lemma {:induction false} ArgumentSynopsesError(args: seq<ArgumentSpec>)
    ensures ArgumentSynopses(args).Err? ==>
      exists i :: (0 <= i < |args| && !ArgumentIsValid(args[i])
        && (forall j :: 0 <= j < i ==> ArgumentIsValid(args[j]))
        && ArgumentSynopses(args).error == RequiredArgumentWithDefault(args[i].name))
  {
    if args != [] && ArgumentIsValid(args[0]) && ArgumentSynopses(args).Err? {
      ArgumentSynopsesError(args[1..]);
      var k :| 0 <= k < |args[1..]| && !ArgumentIsValid(args[1..][k])
        && (forall j :: 0 <= j < k ==> ArgumentIsValid(args[1..][j]))
        && ArgumentSynopses(args[1..]).error == RequiredArgumentWithDefault(args[1..][k].name);
      assert !ArgumentIsValid(args[k + 1]);
      assert forall j :: 0 <= j < k + 1 ==> ArgumentIsValid(args[j]) by {
        forall j | 0 <= j < k + 1 ensures ArgumentIsValid(args[j]) {
          if j > 0 { assert args[j] == args[1..][j - 1]; }
        }
      }
    }
  }

  /** The same over the flag and option map. */
  function ParamSynopses(ps: seq<ParamSpec>): (r: Result<seq<SynopsisEntry>>)
    ensures r.Ok? <==> forall i :: 0 <= i < |ps| ==> ParamSynopsis(ps[i]).Ok?
    ensures r.Ok? ==> (|r.value| == |ps|
      && forall i :: 0 <= i < |ps| ==> r.value[i] == ParamSynopsis(ps[i]).value)
  {
    if ps == [] then Ok([])
    else
      match ParamSynopsis(ps[0])
      case Err(e) => Err(e)
      case Ok(s) =>
        match ParamSynopses(ps[1..])
        case Err(e) => Err(e)
        case Ok(rest) => Ok([s] + rest)
  }

  /** The error is that of the first invalid option; flags never fail. */
  lemma {:induction false} ParamSynopsesError(ps: seq<ParamSpec>)
    ensures ParamSynopses(ps).Err? ==>
      exists i :: (0 <= i < |ps| && ps[i].OptionValue? && !OptionIsValid(ps[i].option)
        && (forall j :: 0 <= j < i ==> ParamSynopsis(ps[j]).Ok?)
        && ParamSynopses(ps).error == RequiredOptionWithOptionalValue(ps[i].option.name))
  {
    if ps != [] && ParamSynopsis(ps[0]).Ok? && ParamSynopses(ps).Err? {
      ParamSynopsesError(ps[1..]);
      var k :| 0 <= k < |ps[1..]| && ps[1..][k].OptionValue? && !OptionIsValid(ps[1..][k].option)
        && (forall j :: 0 <= j < k ==> ParamSynopsis(ps[1..][j]).Ok?)
        && ParamSynopses(ps[1..]).error == RequiredOptionWithOptionalValue(ps[1..][k].option.name);
      assert ps[k + 1] == ps[1..][k];
      assert forall j :: 0 <= j < k + 1 ==> ParamSynopsis(ps[j]).Ok? by {
        forall j | 0 <= j < k + 1 ensures ParamSynopsis(ps[j]).Ok? {
          if j > 0 { assert ps[j] == ps[1..][j - 1]; }
        }
      }
    }
  }

  /**
   * `getSynopsis`: argument entries, then flag and option entries, then the
   * generic entry when arbitrary options are accepted.
   */
  function CommandSynopsis(st: CommandState): (r: Result<seq<SynopsisEntry>>)
    ensures r.Ok? <==> ArgumentSynopses(st.arguments).Ok? && ParamSynopses(st.params).Ok?
    ensures r.Err? ==> r.error == (if ArgumentSynopses(st.arguments).Err?
      then ArgumentSynopses(st.arguments).error else ParamSynopses(st.params).error)
    ensures r.Ok? ==>
      var n, m := |st.arguments|, |st.params|;
      && |r.value| == n + m + (if st.fields.acceptArbitraryOptions then 1 else 0)
      && r.value[..n] == ArgumentSynopses(st.arguments).value
      && r.value[n..n + m] == ParamSynopses(st.params).value
      && (st.fields.acceptArbitraryOptions ==> r.value[n + m] == GenericEntry)
  {
    var args :- ArgumentSynopses(st.arguments);
    var ps :- ParamSynopses(st.params);
    Ok(args + ps + if st.fields.acceptArbitraryOptions then [GenericEntry] else [])
  }

  /** A namespace command's synopsis is empty. */
  lemma NamespaceSynopsisIsEmpty(st: CommandState)
    requires st.isNamespace && Frozen(st)
    ensures CommandSynopsis(st) == Ok([])
  {
  }

  // ---------------------------------------------------------------------------
  // Full names

  /** Names joined by single spaces. */
  function JoinWords(ws: seq<string>): string
    requires ws != []
    decreases |ws|
  {
    if |ws| == 1 then ws[0] else ws[0] + " " + JoinWords(ws[1..])
  }

  lemma {:induction false} JoinWordsAppend(ws: seq<string>, w: string)
    requires ws != []
    ensures JoinWords(ws + [w]) == JoinWords(ws) + " " + w
    decreases |ws|
  {
    if |ws| == 1 {
      assert ws + [w] == [ws[0], w];
    } else {
      assert (ws + [w])[1..] == ws[1..] + [w];
      JoinWordsAppend(ws[1..], w);
    }
  }

  predicate NonEmptyName(n: Option<string>) {
    n.Some? && n.value != ""
  }

  /**
   * The reference reading of a chain of names, outermost first: every name
   * must be a non-empty string, and then they are joined by spaces.
   */
  function JoinNames(ns: seq<Option<string>>): (r: Result<string>)
    requires ns != []
    ensures r.Ok? <==> forall i :: 0 <= i < |ns| ==> NonEmptyName(ns[i])
    ensures r.Err? ==> r.error == EmptyCommandName
  {
    if forall i :: 0 <= i < |ns| ==> NonEmptyName(ns[i])
    then Ok(JoinWords(seq(|ns|, i requires 0 <= i < |ns| => ns[i].value)))
    else Err(EmptyCommandName)
  }

  class Command {
    const isNamespace: bool
    var name: Option<string>
    var description: Option<string>
    var usage: Option<string>
    var when: Option<string>
    var acceptArbitraryOptions: bool
    var handler: Option<Handler>
    var beforeInvoke: Option<Callable>
    var afterInvoke: Option<Callable>
    var arguments: seq<Argument>
    var options: seq<Param>
    var parent: Command?

    /** `new Command()`: nothing is set. */
    constructor ()
      ensures State() == CommandState(false, NewCommandFields, [], [])
      ensures arguments == [] && options == [] && parent == null
    {
      isNamespace := false;
      name, description, usage, when := None, None, None, None;
      acceptArbitraryOptions := false;
      handler, beforeInvoke, afterInvoke := None, None, None;
      arguments, options := [], [];
      parent := null;
    }

    /** `new NamespaceCommand($name, $description)`. */
    constructor Namespace(name: string, description: string)
      ensures State() == NamespaceState(name, description)
      ensures arguments == [] && options == [] && parent == null
      ensures Good(State())
    {
      isNamespace := true;
      this.name, this.description, usage, when := Some(name), Some(description), None, None;
      acceptArbitraryOptions := false;
      handler, beforeInvoke, afterInvoke := Some(NamespaceMarker), None, None;
      arguments, options := [], [];
      parent := null;
    }

    function Fields(): CommandFields
      reads this
    {
      CommandFields(name, description, usage, when, acceptArbitraryOptions, handler, beforeInvoke, afterInvoke)
    }

    ghost function Footprint(): set<object>
      reads this
    {
      (set a | a in arguments :: a as object) + FlagObjects(options) + OptionObjects(options)
    }

    /** The command read into a value. */
    function State(): CommandState
      reads this, arguments, FlagObjects(options), OptionObjects(options)
    {
      CommandState(isNamespace, Fields(), ArgumentSpecsOf(arguments), ParamSpecsOf(options))
    }

    /** `hasParameter`. */
    function HasParameter(n: string): (b: bool)
      reads this, arguments, FlagObjects(options), OptionObjects(options)
    {
      NameTaken(ArgumentSpecsOf(arguments), ParamSpecsOf(options), n)
    }

    /** `getSynopsis`. */
    function Synopsis(): Result<seq<SynopsisEntry>>
      reads this, arguments, FlagObjects(options), OptionObjects(options)
    {
      CommandSynopsis(State())
    }

    method AddArgument(a: Argument) returns (o: Outcome)
      modifies this
      ensures (o, State()) == AddArgumentTo(old(State()), a.Spec())
      ensures arguments == if o.Pass? then old(arguments) + [a] else old(arguments)
      ensures options == old(options) && parent == old(parent)
    {
      if isNamespace {
        return Fail(NamespaceRestriction(AddArgumentOp));
      }
      ghost var st := State();
      o := CheckArgument(ArgumentSpecsOf(arguments), ParamSpecsOf(options), a.Spec());
      if o.Pass? {
        ArgumentSpecsOfAppend(arguments, a);
        arguments := arguments + [a];
        ArgumentSpecsFramed(arguments);
        ParamSpecsFramed(options);
        assert State() == st.(arguments := st.arguments + [a.Spec()]);
      }
    }

    method AddFlag(f: Flag) returns (o: Outcome)
      modifies this
      ensures (o, State()) == AddParamTo(old(State()), FlagValue(f.Spec()))
      ensures options == if o.Pass? then old(options) + [FlagParam(f)] else old(options)
      ensures arguments == old(arguments) && parent == old(parent)
    {
      if isNamespace {
        return Fail(NamespaceRestriction(AddFlagOp));
      }
      if HasParameter(f.name) {
        return Fail(DuplicateParameter(FlagKind, f.name));
      }
      ghost var st := State();
      ghost var spec := FlagValue(f.Spec());
      assert AddParamTo(st, spec) == (Pass, st.(params := st.params + [spec]));
      ParamSpecsOfAppend(options, FlagParam(f));
      options := options + [FlagParam(f)];
      ArgumentSpecsFramed(arguments);
      ParamSpecsFramed(options);
      assert State() == st.(params := st.params + [spec]);
      o := Pass;
    }

    method AddOption(op: AssocOption) returns (o: Outcome)
      modifies this
      ensures (o, State()) == AddParamTo(old(State()), OptionValue(op.Spec()))
      ensures options == if o.Pass? then old(options) + [OptionParam(op)] else old(options)
      ensures arguments == old(arguments) && parent == old(parent)
    {
      if isNamespace {
        return Fail(NamespaceRestriction(AddOptionOp));
      }
      if HasParameter(op.name) {
        return Fail(DuplicateParameter(OptionKind, op.name));
      }
      ghost var st := State();
      ghost var spec := OptionValue(op.Spec());
      assert AddParamTo(st, spec) == (Pass, st.(params := st.params + [spec]));
      ParamSpecsOfAppend(options, OptionParam(op));
      options := options + [OptionParam(op)];
      ArgumentSpecsFramed(arguments);
      ParamSpecsFramed(options);
      assert State() == st.(params := st.params + [spec]);
      o := Pass;
    }

    /** The simple setters, and their namespace overrides. */
    method Set(s: CommandSetter) returns (o: Outcome)
      modifies this
      ensures (o, State()) == SetOn(old(State()), s)
      ensures arguments == old(arguments) && options == old(options) && parent == old(parent)
    {
      if isNamespace && NamespaceRefusal(s).Some? {
        return Fail(NamespaceRestriction(NamespaceRefusal(s).value));
      }
      ghost var st := State();
      Assign(s);
      ArgumentSpecsFramed(arguments);
      ParamSpecsFramed(options);
      assert State() == st.(fields := ApplySetter(st.fields, s));
      o := Pass;
    }

    /** The field assignment of one simple setter. */
    method Assign(s: CommandSetter)
      modifies this
      ensures Fields() == ApplySetter(old(Fields()), s)
      ensures arguments == old(arguments) && options == old(options)
      ensures parent == old(parent)
    {
      match s {
        case SetAcceptArbitraryOptions(b) => acceptArbitraryOptions := b;
        case SetAfterInvokeCallback(c) => afterInvoke := Some(c);
        case SetBeforeInvokeCallback(c) => beforeInvoke := Some(c);
        case SetDescription(d) => description := Some(d);
        case SetHandler(c) => handler := Some(Callback(c));
        case SetName(n) => name := Some(n);
        case SetUsage(u) => usage := Some(u);
        case SetWhen(w) => when := Some(w);
      }
    }

    /** `setParent`, which namespace commands inherit unchanged. */
    method SetParent(p: Command?)
      modifies this
      ensures parent == p
      ensures State() == old(State()) && arguments == old(arguments) && options == old(options)
    {
      ghost var st := State();
      parent := p;
      ArgumentSpecsFramed(arguments);
      ParamSpecsFramed(options);
    }

    /** `getHandler` on its explicit-handler path; the message names the command, so getName runs first. */
    function GetHandler(ghost chain: seq<Command>): (r: Result<Handler>)
      reads this, chain
      requires ChainFrom(this, chain)
      ensures handler.Some? ==> r == Ok(handler.value)
      ensures handler.None? ==> (r.Err? && r.error ==
        if FullName(this, chain).Err? then EmptyCommandName else HandlerNotSet(FullName(this, chain).value))
    {
      if handler.Some? then Ok(handler.value)
      else
        match FullName(this, chain)
        case Err(e) => Err(e)
        case Ok(n) => Err(HandlerNotSet(n))
    }
  }

  // ---------------------------------------------------------------------------
  // Reading descriptor objects into values

  function ArgumentSpecsOf(args: seq<Argument>): (r: seq<ArgumentSpec>)
    reads args
    ensures |r| == |args|
    ensures forall i :: 0 <= i < |args| ==> r[i] == args[i].Spec()
  {
    if args == [] then [] else [args[0].Spec()] + ArgumentSpecsOf(args[1..])
  }

  function FlagObjects(ps: seq<Param>): set<Flag> {
    set p | p in ps && p.FlagParam? :: p.flag
  }

  function OptionObjects(ps: seq<Param>): set<AssocOption> {
    set p | p in ps && p.OptionParam? :: p.option
  }

  function ParamSpecsOf(ps: seq<Param>): (r: seq<ParamSpec>)
    reads FlagObjects(ps), OptionObjects(ps)
    ensures |r| == |ps|
    ensures forall i :: 0 <= i < |ps| ==> r[i] == ps[i].Spec()
    ensures forall i :: 0 <= i < |ps| ==> r[i].Name() == ps[i].Name() && (r[i].FlagValue? <==> ps[i].FlagParam?)
  {
    if ps == [] then [] else [ps[0].Spec()] + ParamSpecsOf(ps[1..])
  }

  lemma ArgumentSpecsOfAppend(args: seq<Argument>, a: Argument)
    ensures ArgumentSpecsOf(args + [a]) == ArgumentSpecsOf(args) + [a.Spec()]
  {
    assert forall i :: 0 <= i < |args| ==> (args + [a])[i] == args[i];
  }

  /** The specs of descriptors whose fields did not change did not change. */
  twostate lemma ArgumentSpecsFramed(args: seq<Argument>)
    requires unchanged(args)
    ensures ArgumentSpecsOf(args) == old(ArgumentSpecsOf(args))
  {
  }

  /** A command none of whose objects changed is in the same state. */
  twostate lemma StateFramed(c: Command)
    requires unchanged(c) && unchanged(c.arguments) && unchanged(FlagObjects(c.options)) && unchanged(OptionObjects(c.options))
    ensures c.State() == old(c.State())
  {
    ArgumentSpecsFramed(c.arguments);
    ParamSpecsFramed(c.options);
  }

  twostate lemma ParamSpecsFramed(ps: seq<Param>)
    requires unchanged(FlagObjects(ps)) && unchanged(OptionObjects(ps))
    ensures ParamSpecsOf(ps) == old(ParamSpecsOf(ps))
  {
  }

  lemma ParamSpecsOfAppend(ps: seq<Param>, p: Param)
    ensures ParamSpecsOf(ps + [p]) == ParamSpecsOf(ps) + [p.Spec()]
  {
    assert forall i :: 0 <= i < |ps| ==> (ps + [p])[i] == ps[i];
  }

  // ---------------------------------------------------------------------------
  // The parent chain

  /**
   * `chain` lists c's ancestors, nearest first, ending at a command without a
   * parent. Such a chain exists exactly when following `parent` stops; when
   * it does not, `getName` recurses forever.
   */
  ghost predicate ChainFrom(c: Command, chain: seq<Command>)
    reads c, chain
    decreases |chain|
  {
    if c.parent == null then chain == []
    else chain != [] && chain[0] == c.parent && ChainFrom(chain[0], chain[1..])
  }

  /** The names along the chain, outermost ancestor first and c's own name last. */
  ghost function NameChain(c: Command, chain: seq<Command>): (ns: seq<Option<string>>)
    reads c, chain
    requires ChainFrom(c, chain)
    ensures |ns| == |chain| + 1 && ns[|chain|] == c.name
    decreases |chain|
  {
    if c.parent == null then [c.name] else NameChain(chain[0], chain[1..]) + [c.name]
  }

  /** `getName`: the own name must be a non-empty string; a parent's full name goes in front. */
  function FullName(c: Command, ghost chain: seq<Command>): (r: Result<string>)
    reads c, chain
    requires ChainFrom(c, chain)
    ensures r == JoinNames(NameChain(c, chain))
    decreases |chain|
  {
    if !NonEmptyName(c.name) then Err(EmptyCommandName)
    else if c.parent == null then Ok(c.name.value)
    else
      match FullName(c.parent, chain[1..])
      case Err(e) =>
        FullNameStepErr(NameChain(c.parent, chain[1..]), c.name);
        Err(e)
      case Ok(p) =>
        FullNameStep(NameChain(c.parent, chain[1..]), c.name, p);
        Ok(p + " " + c.name.value)
  }

  lemma FullNameStep(ns: seq<Option<string>>, n: Option<string>, p: string)
    requires ns != [] && NonEmptyName(n) && JoinNames(ns) == Ok(p)
    ensures JoinNames(ns + [n]) == Ok(p + " " + n.value)
  {
    var ws := seq(|ns|, i requires 0 <= i < |ns| => ns[i].value);
    var ws' := seq(|ns + [n]|, i requires 0 <= i < |ns + [n]| => (ns + [n])[i].value);
    assert ws' == ws + [n.value];
    JoinWordsAppend(ws, n.value);
  }

  lemma FullNameStepErr(ns: seq<Option<string>>, n: Option<string>)
    requires ns != [] && JoinNames(ns).Err?
    ensures JoinNames(ns + [n]).Err?
  {
    var i :| 0 <= i < |ns| && !NonEmptyName(ns[i]);
    assert (ns + [n])[i] == ns[i];
  }
}
