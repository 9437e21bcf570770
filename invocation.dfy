/**
 * The name-to-value maps handlers are called with: the map
 * `InvokerBackedInvocationStrategy` builds from its context for a command
 * handler (src/InvokerBackedInvocationStrategy.php) and for a plain callback,
 * and the map `PhpDiHandlerInvoker` builds from an input
 * (src/Invoker/PhpDiHandlerInvoker.php). The invoker that receives a map is
 * not modelled.
 */
module Invocation {
  import opened Wrappers
  import opened PhpArrays
  import opened Parameters
  import opened Commands
  import opened Input

  /* ---------- call ---------- */

  /** `call`: the context merged over a `context` key holding the whole context. */
  function CallParameters(context: Assoc<string, Value>): Assoc<string, Value> {
    Merge([("context", Dict(context))], context)
  }

  /**
   * A context key keeps its (last) value in the map; `context` holds the
   * whole context unless the context has a `context` key of its own; no
   * other key appears.
   */
  lemma CallParametersGet(context: Assoc<string, Value>, k: string)
    ensures Get(CallParameters(context), k) ==
      if HasKey(context, k) then Some(LastValue(context, k))
      else if k == "context" then Some(Dict(context))
      else None
  {
    MergeGet([("context", Dict(context))], context, k);
  }

  /* ---------- callCommandHandler ---------- */

  /** `$this->context['args'] ?? []`, which the loop treats as a list of positional values. */
  function ContextArgs(context: Assoc<string, Value>): (r: Result<seq<Value>>)
    ensures r.Ok? <==> Coalesce(Get(context, "args"), List([])).List?
    ensures r.Err? ==> r.error == ContextNotAnArray("args")
    ensures (!HasKey(context, "args") || Get(context, "args") == Some(Null)) ==> r == Ok([])
  {
    var v := Coalesce(Get(context, "args"), List([]));
    if v.List? then Ok(v.items) else Err(ContextNotAnArray("args"))
  }

  /** `$this->context['assocArgs'] ?? []`: an associative array, or the empty array. */
  function ContextAssoc(context: Assoc<string, Value>): (r: Result<Assoc<string, Value>>)
    ensures r.Ok? <==> Coalesce(Get(context, "assocArgs"), List([])) == List([]) ||
                       Coalesce(Get(context, "assocArgs"), List([])).Dict?
    ensures r.Err? ==> r.error == ContextNotAnArray("assocArgs")
    ensures (!HasKey(context, "assocArgs") || Get(context, "assocArgs") == Some(Null)) ==> r == Ok([])
  {
    var v := Coalesce(Get(context, "assocArgs"), List([]));
    if v.Dict? then Ok(v.entries)
    else if v == List([]) then Ok([])
    else Err(ContextNotAnArray("assocArgs"))
  }

  /** The five bindings the map starts with. */
  function BaseParameters(context: Assoc<string, Value>, args: seq<Value>, assoc: Assoc<string, Value>): Assoc<string, Value> {
    [("args", List(args)), ("assocArgs", Dict(assoc)), ("arguments", List(args)),
     ("options", Dict(assoc)), ("context", Dict(context))]
  }

  /**
   * `args` and `arguments` hold the positional values, `assocArgs` and
   * `options` the associative ones, `context` the context; nothing else.
   */
  lemma BaseParametersGet(context: Assoc<string, Value>, args: seq<Value>, assoc: Assoc<string, Value>, k: string)
    ensures Get(BaseParameters(context, args, assoc), k) ==
      if k == "args" || k == "arguments" then Some(List(args))
      else if k == "assocArgs" || k == "options" then Some(Dict(assoc))
      else if k == "context" then Some(Dict(context))
      else None
  {
    var b := BaseParameters(context, args, assoc);
    assert b[0..] == b && b[5..] == [];
    GetDrop(b, 0, k); GetDrop(b, 1, k); GetDrop(b, 2, k); GetDrop(b, 3, k); GetDrop(b, 4, k);
  }

  /**
   * The `while` loop: each declared argument in turn takes the next
   * positional value, a repeating one takes all the values left; running out
   * of declared arguments while values remain fails.
   */
  function BindPositional(params: Assoc<string, Value>, args: seq<Value>, regs: seq<ArgumentSpec>): Result<Assoc<string, Value>>
    decreases |args|
  {
    if args == [] then Ok(params)
    else if regs == [] then Err(MissingArgumentDescriptor)
    else if regs[0].repeating then Ok(Put(params, regs[0].name, List(args)))
    else BindPositional(Put(params, regs[0].name, args[0]), args[1..], regs[1..])
  }

  /** The loop fails exactly when there are more values than declared arguments and none of them repeats. */
  lemma {:induction false} BindPositionalFails(params: Assoc<string, Value>, args: seq<Value>, regs: seq<ArgumentSpec>)
    ensures BindPositional(params, args, regs).Err? <==> |args| > |regs| && FirstRepeating(regs) == |regs|
    ensures BindPositional(params, args, regs).Err? ==> BindPositional(params, args, regs).error == MissingArgumentDescriptor
    decreases |args|
  {
    if args != [] && regs != [] && !regs[0].repeating {
      BindPositionalFails(Put(params, regs[0].name, args[0]), args[1..], regs[1..]);
      assert FirstRepeating(regs) == 1 + FirstRepeating(regs[1..]);
    } else if args != [] && regs != [] {
      assert FirstRepeating(regs) == 0;
    }
  }

  /** A key that names no declared argument is left as it was. */
  lemma {:induction false} BindPositionalOther(params: Assoc<string, Value>, args: seq<Value>, regs: seq<ArgumentSpec>, k: string)
    requires k !in ArgumentNames(regs)
    requires BindPositional(params, args, regs).Ok?
    ensures Get(BindPositional(params, args, regs).value, k) == Get(params, k)
    decreases |args|
  {
    if args != [] && regs != [] {
      assert k != regs[0].name;
      PutGet(params, regs[0].name, if regs[0].repeating then List(args) else args[0], k);
      if !regs[0].repeating {
        assert ArgumentNames(regs[1..]) == ArgumentNames(regs)[1..];
        BindPositionalOther(Put(params, regs[0].name, args[0]), args[1..], regs[1..], k);
      }
    }
  }

  /**
   * Declared argument i is bound to the i-th value when it comes before the
   * first repeating argument, to all values from i on when it is that
   * argument, and is left as it was when no value reaches it.
   */
  lemma {:induction false} BindPositionalGet(params: Assoc<string, Value>, args: seq<Value>, regs: seq<ArgumentSpec>, i: nat)
    requires Distinct(ArgumentNames(regs))
    requires BindPositional(params, args, regs).Ok?
    requires i < |regs|
    ensures Get(BindPositional(params, args, regs).value, regs[i].name) ==
      if i < FirstRepeating(regs) && i < |args| then Some(args[i])
      else if i == FirstRepeating(regs) && i < |args| then Some(List(args[i..]))
      else Get(params, regs[i].name)
    decreases |args|
  {
    if args != [] {
      var n0 := regs[0].name;
      ArgumentNamesTail(regs);
      if regs[0].repeating {
        assert FirstRepeating(regs) == 0;
        assert args[0..] == args;
        PutGet(params, n0, List(args), regs[i].name);
        if i > 0 {
          ArgumentNameOther(regs, i);
        }
      } else {
        var rest := regs[1..];
        var next := Put(params, n0, args[0]);
        assert FirstRepeating(regs) == 1 + FirstRepeating(rest);
        if i == 0 {
          BindPositionalOther(next, args[1..], rest, n0);
          PutGet(params, n0, args[0], n0);
        } else {
          assert rest[i - 1] == regs[i];
          BindPositionalGet(next, args[1..], rest, i - 1);
          ArgumentNameOther(regs, i);
          PutGet(params, n0, args[0], regs[i].name);
          if i < |args| {
            assert args[1..][i - 1..] == args[i..];
          }
        }
      }
    }
  }

  /** The first declared name is not among the rest, which stay distinct. */
  lemma ArgumentNamesTail(regs: seq<ArgumentSpec>)
    requires regs != [] && Distinct(ArgumentNames(regs))
    ensures regs[0].name !in ArgumentNames(regs[1..])
    ensures Distinct(ArgumentNames(regs[1..]))
  {
    var names := ArgumentNames(regs);
    assert ArgumentNames(regs[1..]) == names[1..];
    forall m | 0 <= m < |regs| - 1 ensures names[1..][m] != regs[0].name {
      assert names[m + 1] != names[0];
    }
  }

  /** Distinct declared names: a later argument's name differs from the first one's. */
  lemma ArgumentNameOther(regs: seq<ArgumentSpec>, i: nat)
    requires 0 < i < |regs| && Distinct(ArgumentNames(regs))
    ensures regs[i].name != regs[0].name
  {
    assert ArgumentNames(regs)[0] != ArgumentNames(regs)[i];
  }

  /**
   * The `foreach` over declared flags and options: an option named in the
   * original associative arguments is bound to its value in the copy (null
   * when an earlier option of the same name already took it), and removed
   * from the copy. Gives the map and the leftover copy.
   */
  function BindNamed(params: Assoc<string, Value>, copy: Assoc<string, Value>, assoc: Assoc<string, Value>,
                     ps: seq<ParamSpec>): (Assoc<string, Value>, Assoc<string, Value>)
    decreases |ps|
  {
    if ps == [] then (params, copy)
    else
      var name := ps[0].Name();
      if HasKey(assoc, name) then
        BindNamed(Put(params, name, Coalesce(Get(copy, name), Null)), Remove(copy, name), assoc, ps[1..])
      else BindNamed(params, copy, assoc, ps[1..])
  }

  /**
   * With distinct option names, a declared name that was passed is bound to
   * its value in the copy and gone from the leftovers; every other key keeps
   * its value in both.
   */
  lemma {:induction false} BindNamedGet(params: Assoc<string, Value>, copy: Assoc<string, Value>, assoc: Assoc<string, Value>,
                                        ps: seq<ParamSpec>, k: string)
    requires Distinct(ParamNames(ps))
    ensures Get(BindNamed(params, copy, assoc, ps).0, k) ==
      if k in ParamNames(ps) && HasKey(assoc, k) then Some(Coalesce(Get(copy, k), Null)) else Get(params, k)
    ensures Get(BindNamed(params, copy, assoc, ps).1, k) ==
      if k in ParamNames(ps) && HasKey(assoc, k) then None else Get(copy, k)
    decreases |ps|
  {
    if ps != [] {
      var name := ps[0].Name();
      DistinctTail(ps);
      assert ParamNames(ps) == [name] + ParamNames(ps[1..]);
      if HasKey(assoc, name) {
        var v := Coalesce(Get(copy, name), Null);
        BindNamedGet(Put(params, name, v), Remove(copy, name), assoc, ps[1..], k);
        PutGet(params, name, v, k);
        RemoveGet(copy, name, k);
      } else {
        BindNamedGet(params, copy, assoc, ps[1..], k);
      }
    }
  }

  /** The leftovers are what `arbitraryOptions` would hold. */
  function WithArbitraryOptions(named: Assoc<string, Value>, leftover: Assoc<string, Value>, accept: bool): Assoc<string, Value> {
    if accept && leftover != [] then Put(named, ArbitraryOptionsKey, Dict(leftover)) else named
  }

  /** `callCommandHandler`'s map for a command in state st. */
  function HandlerParameters(context: Assoc<string, Value>, st: CommandState): Result<Assoc<string, Value>> {
    var args :- ContextArgs(context);
    var assoc :- ContextAssoc(context);
    var positional :- BindPositional(BaseParameters(context, args, assoc), args, st.arguments);
    var (named, leftover) := BindNamed(positional, assoc, assoc, st.params);
    Ok(WithArbitraryOptions(named, leftover, st.fields.acceptArbitraryOptions))
  }

  /**
   * The map fails to build only when the context's `args` or `assocArgs` is
   * not an array, or when more positional values are given than declared
   * arguments and none of them repeats; a missing required argument or
   * option is no failure.
   */
  lemma HandlerParametersFails(context: Assoc<string, Value>, st: CommandState)
    ensures HandlerParameters(context, st).Err? <==>
      ContextArgs(context).Err? || ContextAssoc(context).Err? ||
      (|ContextArgs(context).value| > |st.arguments| && FirstRepeating(st.arguments) == |st.arguments|)
  {
    if ContextArgs(context).Ok? && ContextAssoc(context).Ok? {
      var args, assoc := ContextArgs(context).value, ContextAssoc(context).value;
      BindPositionalFails(BaseParameters(context, args, assoc), args, st.arguments);
    }
  }

  /**
   * `arbitraryOptions` is bound exactly when the command accepts arbitrary
   * options and some passed key names no declared flag or option, and then
   * holds the passed entries no declared name claimed, in order.
   */
  lemma HandlerArbitraryOptions(context: Assoc<string, Value>, st: CommandState)
    requires WellFormed(st.arguments, st.params)
    requires ArbitraryOptionsKey !in ArgumentNames(st.arguments) && ArbitraryOptionsKey !in ParamNames(st.params)
    requires HandlerParameters(context, st).Ok?
    ensures var assoc := ContextAssoc(context).value;
      var leftover := BindNamed([], assoc, assoc, st.params).1;
      && (HasKey(HandlerParameters(context, st).value, ArbitraryOptionsKey) <==>
          st.fields.acceptArbitraryOptions && exists j :: HasKey(assoc, j) && j !in ParamNames(st.params))
      && (forall j :: Get(leftover, j) == if j in ParamNames(st.params) then None else Get(assoc, j))
      && (st.fields.acceptArbitraryOptions && leftover != [] ==>
          Get(HandlerParameters(context, st).value, ArbitraryOptionsKey) == Some(Dict(leftover)))
  {
    var args, assoc := ContextArgs(context).value, ContextAssoc(context).value;
    var base := BaseParameters(context, args, assoc);
    var positional := BindPositional(base, args, st.arguments).value;
    var (named, leftover) := BindNamed(positional, assoc, assoc, st.params);
    var accept := st.fields.acceptArbitraryOptions;
    var k := ArbitraryOptionsKey;
    LeftoverIndependent(positional, [], assoc, assoc, st.params);
    forall j ensures Get(leftover, j) == if j in ParamNames(st.params) then None else Get(assoc, j) {
      BindNamedGet(positional, assoc, assoc, st.params, j);
    }
    BindNamedGet(positional, assoc, assoc, st.params, k);
    BindPositionalOther(base, args, st.arguments, k);
    BaseParametersGet(context, args, assoc, k);
    PutGet(named, k, Dict(leftover), k);
    EmptyIffNoKey(leftover);
    if accept && leftover != [] {
      var j :| HasKey(leftover, j);
      assert HasKey(assoc, j) && j !in ParamNames(st.params);
    }
    if accept && exists j :: HasKey(assoc, j) && j !in ParamNames(st.params) {
      var j :| HasKey(assoc, j) && j !in ParamNames(st.params);
      assert HasKey(leftover, j);
    }
  }

  /** The leftovers do not depend on the map being filled. */
  lemma {:induction false} LeftoverIndependent(p: Assoc<string, Value>, q: Assoc<string, Value>, copy: Assoc<string, Value>,
                                               assoc: Assoc<string, Value>, ps: seq<ParamSpec>)
    ensures BindNamed(p, copy, assoc, ps).1 == BindNamed(q, copy, assoc, ps).1
    decreases |ps|
  {
    if ps != [] {
      var name := ps[0].Name();
      if HasKey(assoc, name) {
        var v := Coalesce(Get(copy, name), Null);
        LeftoverIndependent(Put(p, name, v), Put(q, name, v), Remove(copy, name), assoc, ps[1..]);
      } else {
        LeftoverIndependent(p, q, copy, assoc, ps[1..]);
      }
    }
  }

  /**
   * The map under a declared flag or option name: its passed value when it
   * was passed, and otherwise what the positional pass and the base left
   * there (absent, for a name that is no base key).
   */
  lemma HandlerOptionGet(context: Assoc<string, Value>, st: CommandState, k: string)
    requires WellFormed(st.arguments, st.params)
    requires k in ParamNames(st.params) && k != ArbitraryOptionsKey
    requires HandlerParameters(context, st).Ok?
    ensures var args, assoc := ContextArgs(context).value, ContextAssoc(context).value;
      Get(HandlerParameters(context, st).value, k) ==
        if HasKey(assoc, k) then Some(Get(assoc, k).value)
        else Get(BaseParameters(context, args, assoc), k)
  {
    var args, assoc := ContextArgs(context).value, ContextAssoc(context).value;
    var base := BaseParameters(context, args, assoc);
    var positional := BindPositional(base, args, st.arguments).value;
    var (named, leftover) := BindNamed(positional, assoc, assoc, st.params);
    BindNamedGet(positional, assoc, assoc, st.params, k);
    BindPositionalOther(base, args, st.arguments, k);
    PutGet(named, ArbitraryOptionsKey, Dict(leftover), k);
  }

  /**
   * The map under declared argument i (when no flag or option is passed
   * under that name): the i-th positional value before the first repeating
   * argument, all values from i on at it, and otherwise the base binding.
   */
  lemma HandlerArgumentGet(context: Assoc<string, Value>, st: CommandState, i: nat)
    requires WellFormed(st.arguments, st.params)
    requires i < |st.arguments| && st.arguments[i].name != ArbitraryOptionsKey
    requires HandlerParameters(context, st).Ok?
    ensures var args, assoc := ContextArgs(context).value, ContextAssoc(context).value;
      Get(HandlerParameters(context, st).value, st.arguments[i].name) ==
        if i < FirstRepeating(st.arguments) && i < |args| then Some(args[i])
        else if i == FirstRepeating(st.arguments) && i < |args| then Some(List(args[i..]))
        else Get(BaseParameters(context, args, assoc), st.arguments[i].name)
  {
    var args, assoc := ContextArgs(context).value, ContextAssoc(context).value;
    var base := BaseParameters(context, args, assoc);
    var positional := BindPositional(base, args, st.arguments).value;
    var (named, leftover) := BindNamed(positional, assoc, assoc, st.params);
    var k := st.arguments[i].name;
    assert k in ArgumentNames(st.arguments) by {
      assert ArgumentNames(st.arguments)[i] == k;
    }
    BindNamedGet(positional, assoc, assoc, st.params, k);
    BindPositionalGet(base, args, st.arguments, i);
    PutGet(named, ArbitraryOptionsKey, Dict(leftover), k);
  }

  /** A key that is no declared name keeps its base binding (or stays absent). */
  lemma HandlerOtherGet(context: Assoc<string, Value>, st: CommandState, k: string)
    requires k !in ArgumentNames(st.arguments) && k !in ParamNames(st.params) && k != ArbitraryOptionsKey
    requires HandlerParameters(context, st).Ok?
    requires Distinct(ParamNames(st.params))
    ensures var args, assoc := ContextArgs(context).value, ContextAssoc(context).value;
      Get(HandlerParameters(context, st).value, k) == Get(BaseParameters(context, args, assoc), k)
  {
    var args, assoc := ContextArgs(context).value, ContextAssoc(context).value;
    var base := BaseParameters(context, args, assoc);
    var positional := BindPositional(base, args, st.arguments).value;
    var (named, leftover) := BindNamed(positional, assoc, assoc, st.params);
    BindNamedGet(positional, assoc, assoc, st.params, k);
    BindPositionalOther(base, args, st.arguments, k);
    PutGet(named, ArbitraryOptionsKey, Dict(leftover), k);
  }

  /**
   * `callCommandHandler` up to the invoker call: the map it would hand the
   * invoker along with the command's handler.
   */
  method CallCommandHandler(context: Assoc<string, Value>, command: Command) returns (r: Result<Assoc<string, Value>>)
    ensures r == HandlerParameters(context, command.State())
  {
    var st := command.State();
    var a := ContextArgs(context);
    if a.Err? {
      return Err(a.error);
    }
    var b := ContextAssoc(context);
    if b.Err? {
      return Err(b.error);
    }
    var args, assocArgs := a.value, b.value;
    var parameters := BaseParameters(context, args, assocArgs);
    var argsCopy, registeredArgs := args, st.arguments;
    while |argsCopy| > 0
      invariant BindPositional(parameters, argsCopy, registeredArgs) == BindPositional(BaseParameters(context, args, assocArgs), args, st.arguments)
      decreases |argsCopy|
    {
      if registeredArgs == [] {
        return Err(MissingArgumentDescriptor);
      }
      var current := registeredArgs[0];
      registeredArgs := registeredArgs[1..];
      if current.repeating {
        parameters := Put(parameters, current.name, List(argsCopy));
        argsCopy := [];
      } else {
        parameters := Put(parameters, current.name, argsCopy[0]);
        argsCopy := argsCopy[1..];
      }
    }
    ghost var positional := parameters;
    var assocArgsCopy := assocArgs;
    for i := 0 to |st.params|
      invariant BindNamed(parameters, assocArgsCopy, assocArgs, st.params[i..]) == BindNamed(positional, assocArgs, assocArgs, st.params)
    {
      var name := st.params[i].Name();
      assert st.params[i..][1..] == st.params[i + 1..];
      if HasKey(assocArgs, name) {
        parameters := Put(parameters, name, Coalesce(Get(assocArgsCopy, name), Null));
        assocArgsCopy := Remove(assocArgsCopy, name);
      }
    }
    assert st.params[|st.params|..] == [];
    if st.fields.acceptArbitraryOptions && assocArgsCopy != [] {
      parameters := Put(parameters, ArbitraryOptionsKey, Dict(assocArgsCopy));
    }
    r := Ok(parameters);
  }

  /* ---------- PhpDiHandlerInvoker ---------- */

  /** Type-name keys of the reserved bindings. */
  const CommandClass := "ApheleiaCli\\Command"
  const InputInterfaceClass := "ApheleiaCli\\Input\\InputInterface"
  const ConsoleOutputInterfaceClass := "ApheleiaCli\\Output\\ConsoleOutputInterface"
  const OutputInterfaceClass := "ApheleiaCli\\Output\\OutputInterface"

  /**
   * The reserved bindings of `invoke`. The input, output and command objects
   * are passed as the values that stand for them.
   */
  function Reserved(input: Input, inputObject: Value, output: Value, command: Value): Assoc<string, Value> {
    [("arguments", Dict(input.arguments)), ("options", Dict(input.options)), ("flags", Dict(input.flags)),
     ("args", List(input.WpCliArguments())), ("assocArgs", Dict(input.WpCliAssoc())),
     ("command", command), (CommandClass, command),
     ("input", inputObject), (InputInterfaceClass, inputObject),
     ("output", output), (ConsoleOutputInterfaceClass, output), (OutputInterfaceClass, output)]
  }

  /** The reference reading of the reserved bindings, key by key. */
  function ReservedFor(input: Input, inputObject: Value, output: Value, command: Value, k: string): Option<Value> {
    if k == "arguments" then Some(Dict(input.arguments))
    else if k == "options" then Some(Dict(input.options))
    else if k == "flags" then Some(Dict(input.flags))
    else if k == "args" then Some(List(input.WpCliArguments()))
    else if k == "assocArgs" then Some(Dict(input.WpCliAssoc()))
    else if k == "command" then Some(command)
    else if k == CommandClass then Some(command)
    else if k == "input" then Some(inputObject)
    else if k == InputInterfaceClass then Some(inputObject)
    else if k == "output" then Some(output)
    else if k == ConsoleOutputInterfaceClass then Some(output)
    else if k == OutputInterfaceClass then Some(output)
    else None
  }

  /** Each reserved key holds its value, and no other key is reserved. */
  lemma ReservedGet(input: Input, inputObject: Value, output: Value, command: Value, k: string)
    ensures Get(Reserved(input, inputObject, output, command), k) == ReservedFor(input, inputObject, output, command, k)
  {
    var m := Reserved(input, inputObject, output, command);
    assert Keys(m) == ReservedKeys;
    GetTwelve(m, k);
  }

  const ReservedKeys := ["arguments", "options", "flags", "args", "assocArgs", "command", CommandClass,
                         "input", InputInterfaceClass, "output", ConsoleOutputInterfaceClass, OutputInterfaceClass]

  /** A lookup in twelve entries with the reserved keys, key by key. */
  lemma GetTwelve<V>(m: Assoc<string, V>, k: string)
    requires |m| == 12 && Keys(m) == ReservedKeys
    ensures Get(m, k) ==
      if k == "arguments" then Some(m[0].1) else if k == "options" then Some(m[1].1)
      else if k == "flags" then Some(m[2].1) else if k == "args" then Some(m[3].1)
      else if k == "assocArgs" then Some(m[4].1) else if k == "command" then Some(m[5].1)
      else if k == CommandClass then Some(m[6].1) else if k == "input" then Some(m[7].1)
      else if k == InputInterfaceClass then Some(m[8].1) else if k == "output" then Some(m[9].1)
      else if k == ConsoleOutputInterfaceClass then Some(m[10].1) else if k == OutputInterfaceClass then Some(m[11].1)
      else None
  {
    var ks := Keys(m);
    assert m[0].0 == ks[0] && m[1].0 == ks[1] && m[2].0 == ks[2] && m[3].0 == ks[3];
    assert m[4].0 == ks[4] && m[5].0 == ks[5] && m[6].0 == ks[6] && m[7].0 == ks[7];
    assert m[8].0 == ks[8] && m[9].0 == ks[9] && m[10].0 == ks[10] && m[11].0 == ks[11];
    assert m[0..] == m && m[12..] == [];
    GetSixFrom(m, 0, k);
    GetSixFrom(m, 6, k);
  }

  /** Six steps of a lookup from position i on. */
  lemma GetSixFrom<K, V>(m: Assoc<K, V>, i: nat, k: K)
    requires i + 6 <= |m|
    ensures Get(m[i..], k) ==
      if m[i].0 == k then Some(m[i].1) else if m[i + 1].0 == k then Some(m[i + 1].1)
      else if m[i + 2].0 == k then Some(m[i + 2].1) else if m[i + 3].0 == k then Some(m[i + 3].1)
      else if m[i + 4].0 == k then Some(m[i + 4].1) else if m[i + 5].0 == k then Some(m[i + 5].1)
      else Get(m[i + 6..], k)
  {
    GetDrop(m, i, k); GetDrop(m, i + 1, k); GetDrop(m, i + 2, k);
    GetDrop(m, i + 3, k); GetDrop(m, i + 4, k); GetDrop(m, i + 5, k);
  }

  /** `invoke`'s map: the reserved bindings, then the input's arguments, options and flags merged over them. */
  function InvokeParameters(input: Input, inputObject: Value, output: Value, command: Value): Assoc<string, Value> {
    Merge(Merge(Merge(Reserved(input, inputObject, output, command), input.arguments), input.options), input.flags)
  }

  /**
   * What the handler finds under each name: a flag wins over an option,
   * which wins over an argument, which wins over the reserved binding, so a
   * user parameter named `input` shadows the input object; every name of
   * each bucket appears.
   */
  lemma InvokeParametersGet(input: Input, inputObject: Value, output: Value, command: Value, k: string)
    ensures Get(InvokeParameters(input, inputObject, output, command), k) ==
      if HasKey(input.flags, k) then Some(LastValue(input.flags, k))
      else if HasKey(input.options, k) then Some(LastValue(input.options, k))
      else if HasKey(input.arguments, k) then Some(LastValue(input.arguments, k))
      else ReservedFor(input, inputObject, output, command, k)
    ensures HasKey(InvokeParameters(input, inputObject, output, command), k) <==>
      HasKey(input.flags, k) || HasKey(input.options, k) || HasKey(input.arguments, k) ||
      ReservedFor(input, inputObject, output, command, k).Some?
  {
    var res := Reserved(input, inputObject, output, command);
    MergeGet(Merge(Merge(res, input.arguments), input.options), input.flags, k);
    MergeGet(Merge(res, input.arguments), input.options, k);
    MergeGet(res, input.arguments, k);
    ReservedGet(input, inputObject, output, command, k);
  }
}
