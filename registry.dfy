/**
 * The command registry (src/CommandRegistry.php): a map from full command
 * names to registered commands, in registration order, with group scoping
 * and the removal of groups that registered nothing.
 */
module Registry {
  import opened Wrappers
  import opened PhpArrays
  import opened Commands
  import opened Additions

  // ---------------------------------------------------------------------------
  // The registration map as a value

  /** Whether `add` takes the name `getName` produced: it must be built, and free. */
  function AddOutcome<V>(m: Assoc<string, V>, name: Result<string>): Outcome {
    if name.Err? then Fail(name.error)
    else if HasKey(m, name.value) then Fail(DuplicateCommand(name.value))
    else Pass
  }

  /**
   * The invoker factory a registry is built with. `add` hands it to
   * `new CommandAddition`, whose parameter is typed
   * `InvocationStrategyFactoryInterface`; the default `new InvokerFactory()`
   * implements only `InvokerFactoryInterface`.
   */
  datatype GivenFactory = GivenFactory(isInvocationStrategyFactory: bool)

  /**
   * The outcome of `add` once the name is known: the name must be built and
   * free, and then `new CommandAddition` must accept the registry's factory.
   */
  function RegisterOutcome<V>(m: Assoc<string, V>, name: Result<string>, strategyFactory: bool): Outcome {
    var o := AddOutcome(m, name);
    if o.Fail? then o else if !strategyFactory then Fail(AdditionFactoryTypeError) else Pass
  }

  /**
   * `add` fails when the name fails or is taken, and otherwise exactly when
   * the factory is not a strategy factory: with the default factory every
   * command that gets past the name check is refused.
   */
  lemma RegisterOutcomeFails<V>(m: Assoc<string, V>, name: Result<string>, strategyFactory: bool)
    ensures RegisterOutcome(m, name, strategyFactory).Fail? <==>
      name.Err? || HasKey(m, name.value) || !strategyFactory
    ensures name.Ok? ==>
      (RegisterOutcome(m, name, strategyFactory) == Fail(AdditionFactoryTypeError) <==> !HasKey(m, name.value) && !strategyFactory)
    ensures RegisterOutcome(m, name, strategyFactory).Pass? ==> AddOutcome(m, name) == Pass
  {
  }

  /** `add` on the registration map, given the name `getName` produced and what to store under it. */
  function AddTo<V>(m: Assoc<string, V>, name: Result<string>, v: V): (Outcome, Assoc<string, V>) {
    var o := AddOutcome(m, name);
    if o.Fail? then (o, m) else (Pass, m + [(name.value, v)])
  }

  /** `remove` on the registration map. */
  function RemoveFrom<V>(m: Assoc<string, V>, name: Result<string>): (Outcome, Assoc<string, V>) {
    if name.Err? then (Fail(name.error), m)
    else if !HasKey(m, name.value) then (Fail(UnregisteredCommand(name.value)), m)
    else (Pass, Remove(m, name.value))
  }

  /**
   * An add fails exactly when the name cannot be built or is taken, and then
   * changes nothing; otherwise the new entry is found under its name, every
   * other name reads as before, and the names stay unique.
   */
  lemma AddToGet<V>(m: Assoc<string, V>, name: Result<string>, v: V, j: string)
    requires UniqueKeys(m)
    ensures AddTo(m, name, v).0.Fail? <==> name.Err? || HasKey(m, name.value)
    ensures AddTo(m, name, v).0.Fail? ==> AddTo(m, name, v).1 == m
    ensures AddTo(m, name, v).0.Pass? ==>
      && UniqueKeys(AddTo(m, name, v).1)
      && Get(AddTo(m, name, v).1, j) == if j == name.value then Some(v) else Get(m, j)
  {
    if name.Ok? && !HasKey(m, name.value) {
      PutKeepsUnique(m, name.value, v);
      PutGet(m, name.value, v, j);
    }
  }

  /**
   * A remove fails exactly when the name cannot be built or is not
   * registered, and then changes nothing; otherwise exactly that name is
   * gone and the other names stay, in their order, with their entries.
   */
  lemma RemoveFromGet<V>(m: Assoc<string, V>, name: Result<string>, j: string)
    requires UniqueKeys(m)
    ensures RemoveFrom(m, name).0.Fail? <==> name.Err? || !HasKey(m, name.value)
    ensures RemoveFrom(m, name).0.Fail? ==> RemoveFrom(m, name).1 == m
    ensures RemoveFrom(m, name).0.Pass? ==>
      && UniqueKeys(RemoveFrom(m, name).1)
      && Keys(RemoveFrom(m, name).1) == KeysWithout(Keys(m), name.value)
      && Get(RemoveFrom(m, name).1, j) == if j == name.value then None else Get(m, j)
  {
    if name.Ok? && HasKey(m, name.value) {
      RemoveKeepsUnique(m, name.value);
      RemoveKeys(m, name.value);
      RemoveGet(m, name.value, j);
    }
  }

  lemma {:induction false} RemoveFreshLast<V>(m: Assoc<string, V>, n: string, v: V)
    requires !HasKey(m, n)
    ensures Remove(m + [(n, v)], n) == m
    decreases |m|
  {
    if m == [] {
      assert [] + [(n, v)] == [(n, v)];
    } else {
      assert (m + [(n, v)])[1..] == m[1..] + [(n, v)];
      assert Keys(m) == [m[0].0] + Keys(m[1..]);
      RemoveFreshLast(m[1..], n, v);
    }
  }

  /**
   * Registering under a name and then removing that name gives back the map
   * as it was: what a group that registers nothing amounts to.
   */
  lemma AddThenRemove<V>(m: Assoc<string, V>, n: string, v: V)
    requires AddTo(m, Ok(n), v).0.Pass?
    ensures RemoveFrom(AddTo(m, Ok(n), v).1, Ok(n)) == (Pass, m)
  {
    HasKeyAt(m + [(n, v)], |m|);
    RemoveFreshLast(m, n, v);
  }

  /** `getRegisteredCommands`: the command of each addition, under the same name and in the same order. */
  function CommandsOf(r: Assoc<string, CommandAddition>): (m: Assoc<string, Command>)
    ensures |m| == |r| && Keys(m) == Keys(r)
    ensures forall i :: 0 <= i < |r| ==> m[i] == (r[i].0, r[i].1.command)
  {
    seq(|r|, i requires 0 <= i < |r| => (r[i].0, r[i].1.command))
  }

  /** The command of each addition is what `getRegisteredCommands` finds under its name. */
  lemma {:induction false} CommandsOfGet(r: Assoc<string, CommandAddition>, j: string)
    ensures Get(CommandsOf(r), j) == if HasKey(r, j) then Some(Get(r, j).value.command) else None
    decreases |r|
  {
    if r != [] {
      assert CommandsOf(r)[1..] == CommandsOf(r[1..]);
      assert Keys(r) == [r[0].0] + Keys(r[1..]);
      CommandsOfGet(r[1..], j);
    }
  }

  /**
   * After a successful add, `getRegisteredCommands` gives the added command
   * under the new name and what it gave before under every other name.
   */
  lemma RegisteredAfterAdd(r: Assoc<string, CommandAddition>, name: string, a: CommandAddition, j: string)
    requires UniqueKeys(r) && AddOutcome(r, Ok(name)) == Pass
    ensures UniqueKeys(CommandsOf(AddTo(r, Ok(name), a).1))
    ensures Get(CommandsOf(AddTo(r, Ok(name), a).1), j) == if j == name then Some(a.command) else Get(CommandsOf(r), j)
  {
    var r' := AddTo(r, Ok(name), a).1;
    AddToGet(r, Ok(name), a, j);
    SameKeysUnique(r', CommandsOf(r'));
    CommandsOfGet(r', j);
    CommandsOfGet(r, j);
  }

  /**
   * After a successful remove, `getRegisteredCommands` no longer has the
   * name and gives what it gave before under every other name.
   */
  lemma RegisteredAfterRemove(r: Assoc<string, CommandAddition>, name: string, j: string)
    requires UniqueKeys(r) && HasKey(r, name)
    ensures Get(CommandsOf(RemoveFrom(r, Ok(name)).1), j) == if j == name then None else Get(CommandsOf(r), j)
  {
    var r' := RemoveFrom(r, Ok(name)).1;
    RemoveFromGet(r, Ok(name), j);
    CommandsOfGet(r', j);
    CommandsOfGet(r, j);
  }

  /** `new CommandAddition(...)` followed by `setAutoExit`. */
  method NewAddition(command: Command, autoExit: bool) returns (a: CommandAddition)
    ensures fresh(a) && a.command == command && a.autoExit == autoExit
  {
    a := new CommandAddition(command);
    a.SetAutoExit(autoExit);
  }

  /** What `group` keeps between opening the scope and closing it. */
  datatype GroupScope = GroupScope(command: Command, preCallbackCount: nat, previousGroupParent: Command?)

  class CommandRegistry {
    var allowChildlessGroups: bool
    var autoExit: bool
    var currentGroupParent: Command?
    var registeredCommands: Assoc<string, CommandAddition>
    /** Whether the invoker factory is one `new CommandAddition` accepts. */
    const strategyFactory: bool

    /** The registered names are unique, as the keys of a PHP array are. */
    ghost predicate Valid()
      reads this
    {
      UniqueKeys(registeredCommands)
    }

    /** A missing factory selects `new InvokerFactory()`, which is no strategy factory. */
    constructor (invokerFactory: Option<GivenFactory>)
      ensures Valid() && registeredCommands == []
      ensures !allowChildlessGroups && autoExit && currentGroupParent == null
      ensures invokerFactory.None? ==> !strategyFactory
      ensures invokerFactory.Some? ==> strategyFactory == invokerFactory.value.isInvocationStrategyFactory
    {
      strategyFactory := invokerFactory.Some? && invokerFactory.value.isInvocationStrategyFactory;
      allowChildlessGroups := false;
      autoExit := true;
      currentGroupParent := null;
      registeredCommands := [];
    }

    method AllowChildlessGroups(allowChildlessGroups: bool)
      modifies this
      ensures this.allowChildlessGroups == allowChildlessGroups
      ensures autoExit == old(autoExit) && currentGroupParent == old(currentGroupParent)
      ensures registeredCommands == old(registeredCommands)
    {
      this.allowChildlessGroups := allowChildlessGroups;
    }

    method SetAutoExit(autoExit: bool)
      modifies this
      ensures this.autoExit == autoExit
      ensures allowChildlessGroups == old(allowChildlessGroups) && currentGroupParent == old(currentGroupParent)
      ensures registeredCommands == old(registeredCommands)
    {
      this.autoExit := autoExit;
    }

    /** `getRegisteredCommands`. */
    function GetRegisteredCommands(): (m: Assoc<string, Command>)
      reads this
      ensures Valid() ==> UniqueKeys(m)
      ensures forall n :: HasKey(m, n) <==> HasKey(registeredCommands, n)
    {
      var m := CommandsOf(registeredCommands);
      SameKeysUnique(registeredCommands, m);
      m
    }

    /**
     * `add`: inside a group the command first gets the group command as
     * parent; then its full name is the key, and a taken name fails. `chain`
     * is the command's ancestor chain once the parent is set; `addition` is
     * the entry stored on success.
     */
    method Add(command: Command, ghost chain: seq<Command>) returns (o: Outcome, addition: CommandAddition?)
      requires Valid()
      requires currentGroupParent != null ==>
        chain != [] && chain[0] == currentGroupParent && ChainFrom(currentGroupParent, chain[1..]) && command !in chain
      requires currentGroupParent == null ==> ChainFrom(command, chain)
      modifies this, command
      ensures Valid()
      ensures command.parent == if currentGroupParent != null then currentGroupParent else old(command.parent)
      ensures command.Fields() == old(command.Fields())
      ensures command.arguments == old(command.arguments) && command.options == old(command.options)
      ensures ChainFrom(command, chain)
      ensures o == RegisterOutcome(old(registeredCommands), FullName(command, chain), strategyFactory)
      ensures o.Fail? ==> addition == null && registeredCommands == old(registeredCommands)
      ensures o.Pass? ==> addition != null && fresh(addition) && addition.command == command && addition.autoExit == autoExit
      ensures o.Pass? ==> registeredCommands == AddTo<CommandAddition>(old(registeredCommands), FullName(command, chain), addition).1
      ensures allowChildlessGroups == old(allowChildlessGroups) && autoExit == old(autoExit)
      ensures currentGroupParent == old(currentGroupParent)
    {
      Attach(command, currentGroupParent, chain);
      var name := FullName(command, chain);
      if name.Err? {
        return Fail(name.error), null;
      }
      o, addition := Register(command, name.value);
    }

    /** The part of `add` before `getName`: inside a group, the group command becomes the parent. */
    static method Attach(command: Command, groupParent: Command?, ghost chain: seq<Command>)
      requires groupParent != null ==>
        chain != [] && chain[0] == groupParent && ChainFrom(groupParent, chain[1..]) && command !in chain
      requires groupParent == null ==> ChainFrom(command, chain)
      modifies command
      ensures command.parent == if groupParent != null then groupParent else old(command.parent)
      ensures command.Fields() == old(command.Fields())
      ensures command.arguments == old(command.arguments) && command.options == old(command.options)
      ensures ChainFrom(command, chain)
    {
      if groupParent != null {
        command.SetParent(groupParent);
      }
    }

    /** The part of `add` after `getName`: a taken name fails, then a factory `CommandAddition` refuses; otherwise a new addition is stored. */
    method Register(command: Command, name: string) returns (o: Outcome, addition: CommandAddition?)
      requires Valid()
      modifies this
      ensures Valid()
      ensures o == RegisterOutcome(old(registeredCommands), Ok(name), strategyFactory)
      ensures o.Fail? ==> addition == null && registeredCommands == old(registeredCommands)
      ensures o.Pass? ==> addition != null && fresh(addition) && addition.command == command && addition.autoExit == autoExit
      ensures o.Pass? ==> registeredCommands == AddTo<CommandAddition>(old(registeredCommands), Ok(name), addition).1
      ensures allowChildlessGroups == old(allowChildlessGroups) && autoExit == old(autoExit)
      ensures currentGroupParent == old(currentGroupParent)
    {
      if HasKey(registeredCommands, name) {
        return Fail(DuplicateCommand(name)), null;
      }
      if !strategyFactory {
        return Fail(AdditionFactoryTypeError), null;
      }
      var a := NewAddition(command, autoExit);
      Store(name, a);
      o, addition := Pass, a;
    }

    /** The assignment that stores a new addition under a name not yet registered. */
    method Store(name: string, a: CommandAddition)
      requires Valid() && !HasKey(registeredCommands, name)
      modifies this
      ensures Valid()
      ensures registeredCommands == AddTo(old(registeredCommands), Ok(name), a).1
      ensures allowChildlessGroups == old(allowChildlessGroups) && autoExit == old(autoExit)
      ensures currentGroupParent == old(currentGroupParent)
    {
      AddToGet(registeredCommands, Ok(name), a, name);
      registeredCommands := registeredCommands + [(name, a)];
    }

    /** `remove`: the command's full name must be registered, and exactly that entry goes. */
    method Remove(command: Command, ghost chain: seq<Command>) returns (o: Outcome)
      requires Valid() && ChainFrom(command, chain)
      modifies this
      ensures Valid()
      ensures (o, registeredCommands) == RemoveFrom(old(registeredCommands), FullName(command, chain))
      ensures allowChildlessGroups == old(allowChildlessGroups) && autoExit == old(autoExit)
      ensures currentGroupParent == old(currentGroupParent)
    {
      var name := FullName(command, chain);
      if name.Err? {
        return Fail(name.error);
      }
      if !HasKey(registeredCommands, name.value) {
        return Fail(UnregisteredCommand(name.value));
      }
      RemoveFromGet(registeredCommands, name, name.value);
      registeredCommands := PhpArrays.Remove(registeredCommands, name.value);
      o := Pass;
    }

    /** `namespace`: a new namespace command, added as any other. */
    method Namespace(namespace: string, description: string, ghost groupChain: seq<Command>)
      returns (command: Command, o: Outcome, ghost chain: seq<Command>, addition: CommandAddition?)
      requires Valid()
      requires currentGroupParent != null ==> ChainFrom(currentGroupParent, groupChain)
      modifies this
      ensures Valid()
      ensures fresh(command) && command.State() == NamespaceState(namespace, description) && Good(command.State())
      ensures command.arguments == [] && command.options == []
      ensures command.parent == currentGroupParent
      ensures chain == if currentGroupParent != null then [currentGroupParent] + groupChain else []
      ensures ChainFrom(command, chain)
      ensures o == RegisterOutcome(old(registeredCommands), FullName(command, chain), strategyFactory)
      ensures o.Fail? ==> addition == null && registeredCommands == old(registeredCommands)
      ensures o.Pass? ==> addition != null && fresh(addition) && addition.command == command && addition.autoExit == autoExit
      ensures o.Pass? ==> registeredCommands == AddTo<CommandAddition>(old(registeredCommands), FullName(command, chain), addition).1
      ensures allowChildlessGroups == old(allowChildlessGroups) && autoExit == old(autoExit)
      ensures currentGroupParent == old(currentGroupParent)
    {
      command := new Command.Namespace(namespace, description);
      chain := if currentGroupParent != null then [currentGroupParent] + groupChain else [];
      o, addition := Add(command, chain);
    }

    /**
     * The part of `group` before the callback: the group's namespace command
     * is added, the count of registered commands is taken, and the group
     * command becomes the parent of what is added next. A failing add
     * leaves the scope as it was.
     */
    method BeginGroup(group: string, description: string, ghost groupChain: seq<Command>)
      returns (r: Result<GroupScope>, ghost chain: seq<Command>, ghost name: Result<string>, ghost addition: CommandAddition?)
      requires Valid()
      requires currentGroupParent != null ==> ChainFrom(currentGroupParent, groupChain)
      modifies this
      ensures Valid()
      ensures r.Err? ==> currentGroupParent == old(currentGroupParent) && registeredCommands == old(registeredCommands)
      ensures r.Ok? ==>
        && fresh(r.value.command)
        && r.value.command.State() == NamespaceState(group, description) && Good(r.value.command.State())
        && r.value.command.parent == old(currentGroupParent)
        && chain == (if old(currentGroupParent) != null then [old(currentGroupParent)] + groupChain else [])
        && ChainFrom(r.value.command, chain)
        && name == FullName(r.value.command, chain)
        && RegisterOutcome(old(registeredCommands), name, strategyFactory) == Pass
        && addition != null
        && registeredCommands == AddTo<CommandAddition>(old(registeredCommands), name, addition).1
        && r.value.preCallbackCount == |registeredCommands|
        && r.value.previousGroupParent == old(currentGroupParent)
        && currentGroupParent == r.value.command
      ensures allowChildlessGroups == old(allowChildlessGroups) && autoExit == old(autoExit)
    {
      var command, o, a;
      command, o, chain, a := Namespace(group, description, groupChain);
      addition := a;
      name := FullName(command, chain);
      if o.Fail? {
        return Err(o.error), chain, name, addition;
      }
      var scope := EnterGroup(command, chain, name);
      r := Ok(scope);
    }

    /** The count taken before the callback, and the group command as the parent from now on. */
    method EnterGroup(command: Command, ghost chain: seq<Command>, ghost name: Result<string>) returns (scope: GroupScope)
      requires Valid() && ChainFrom(command, chain) && name == FullName(command, chain)
      modifies this
      ensures Valid() && ChainFrom(command, chain) && name == FullName(command, chain)
      ensures scope == GroupScope(command, |registeredCommands|, old(currentGroupParent))
      ensures currentGroupParent == command && registeredCommands == old(registeredCommands)
      ensures allowChildlessGroups == old(allowChildlessGroups) && autoExit == old(autoExit)
    {
      scope := GroupScope(command, |registeredCommands|, currentGroupParent);
      currentGroupParent := command;
    }

    /**
     * The part of `group` after the callback: the previous parent comes
     * back, and unless childless groups are allowed, a group during which
     * the count did not change is removed again.
     */
    method EndGroup(scope: GroupScope, ghost chain: seq<Command>, ghost name: Result<string>) returns (o: Outcome)
      requires Valid() && ChainFrom(scope.command, chain) && name == FullName(scope.command, chain)
      modifies this
      ensures Valid()
      ensures currentGroupParent == scope.previousGroupParent
      ensures !allowChildlessGroups && |old(registeredCommands)| == scope.preCallbackCount ==>
        (o, registeredCommands) == RemoveFrom(old(registeredCommands), name)
      ensures !(!allowChildlessGroups && |old(registeredCommands)| == scope.preCallbackCount) ==>
        o == Pass && registeredCommands == old(registeredCommands)
      ensures allowChildlessGroups == old(allowChildlessGroups) && autoExit == old(autoExit)
    {
      currentGroupParent := scope.previousGroupParent;
      if !allowChildlessGroups && |registeredCommands| == scope.preCallbackCount {
        o := Remove(scope.command, chain);
      } else {
        o := Pass;
      }
    }

    /** `group` with a callback that registers nothing: the registry is left as it was. */
    method ChildlessGroup(group: string, description: string, ghost groupChain: seq<Command>)
      returns (r: Result<GroupScope>, o: Outcome)
      requires Valid() && !allowChildlessGroups
      requires currentGroupParent != null ==> ChainFrom(currentGroupParent, groupChain)
      modifies this
      ensures Valid()
      ensures r.Ok? ==> o == Pass
      ensures registeredCommands == old(registeredCommands)
      ensures currentGroupParent == old(currentGroupParent)
    {
      ghost var chain, name, addition;
      r, chain, name, addition := BeginGroup(group, description, groupChain);
      if r.Err? {
        return r, Pass;
      }
      ghost var before := old(registeredCommands);
      ghost var added, a: CommandAddition := registeredCommands, addition;
      assert name.Ok? && added == AddTo(before, Ok(name.value), a).1;
      AddThenRemove(before, name.value, a);
      o := EndGroup(r.value, chain, name);
    }
  }
}
