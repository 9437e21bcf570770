/**
 * A command as handed to WP-CLI (src/CommandAddition.php): the args record
 * of the optional keys WP-CLI reads, the handler WP-CLI calls, and the exit
 * status the wrapped handler reports.
 */
module Additions {
  import opened Wrappers
  import opened PhpArrays
  import opened Parameters
  import opened Commands

  /** The values of the args record. */
  datatype ArgValue =
    | Text(text: string)
    | SynopsisValue(entries: seq<SynopsisEntry>)
    /** A closure that calls the callback through an invocation strategy. */
    | InvokeVia(callback: Callable)

  /** A description-like key: present only when the value is truthy. */
  function TextEntry(key: string, s: Option<string>): (r: Assoc<string, ArgValue>)
    ensures Get(r, key) == if Truthy(s) then Some(Text(s.value)) else None
  {
    if Truthy(s) then [(key, Text(s.value))] else []
  }

  /** A callback key: present only when the callback is set. */
  function CallbackEntry(key: string, c: Option<Callable>): (r: Assoc<string, ArgValue>)
    ensures Get(r, key) == if c.Some? then Some(InvokeVia(c.value)) else None
  {
    if c.Some? then [(key, InvokeVia(c.value))] else []
  }

  /** The synopsis key: present only when the synopsis is not empty. */
  function SynopsisEntryOf(synopsis: seq<SynopsisEntry>): (r: Assoc<string, ArgValue>)
    ensures Get(r, "synopsis") == if synopsis != [] then Some(SynopsisValue(synopsis)) else None
  {
    if synopsis != [] then [("synopsis", SynopsisValue(synopsis))] else []
  }

  /** Each entry holds at most its own key. */
  lemma EntryKeys(f: CommandFields, synopsis: seq<SynopsisEntry>, k: string)
    ensures k != "shortdesc" ==> !HasKey(TextEntry("shortdesc", f.description), k)
    ensures k != "synopsis" ==> !HasKey(SynopsisEntryOf(synopsis), k)
    ensures k != "longdesc" ==> !HasKey(TextEntry("longdesc", f.usage), k)
    ensures k != "before_invoke" ==> !HasKey(CallbackEntry("before_invoke", f.beforeInvoke), k)
    ensures k != "after_invoke" ==> !HasKey(CallbackEntry("after_invoke", f.afterInvoke), k)
    ensures k != "when" ==> !HasKey(TextEntry("when", f.when), k)
  {
  }

  /**
   * `getArgs`: shortdesc, synopsis, longdesc, before_invoke, after_invoke and
   * when, in that order, each one only when its source value is truthy. A
   * synopsis that fails to build propagates.
   */
  function ArgsOf(st: CommandState): Result<Assoc<string, ArgValue>> {
    ArgsFrom(st.fields, CommandSynopsis(st))
  }

  function ArgsFrom(f: CommandFields, synopsis: Result<seq<SynopsisEntry>>): Result<Assoc<string, ArgValue>> {
    match synopsis
    case Err(e) => Err(e)
    case Ok(entries) =>
      Ok(TextEntry("shortdesc", f.description) + SynopsisEntryOf(entries) + TextEntry("longdesc", f.usage)
        + CallbackEntry("before_invoke", f.beforeInvoke) + CallbackEntry("after_invoke", f.afterInvoke)
        + TextEntry("when", f.when))
  }

  /** The reference reading of the record, key by key. */
  function ArgFor(f: CommandFields, synopsis: seq<SynopsisEntry>, k: string): Option<ArgValue> {
    if k == "shortdesc" then (if Truthy(f.description) then Some(Text(f.description.value)) else None)
    else if k == "synopsis" then (if synopsis != [] then Some(SynopsisValue(synopsis)) else None)
    else if k == "longdesc" then (if Truthy(f.usage) then Some(Text(f.usage.value)) else None)
    else if k == "before_invoke" then (if f.beforeInvoke.Some? then Some(InvokeVia(f.beforeInvoke.value)) else None)
    else if k == "after_invoke" then (if f.afterInvoke.Some? then Some(InvokeVia(f.afterInvoke.value)) else None)
    else if k == "when" then (if Truthy(f.when) then Some(Text(f.when.value)) else None)
    else None
  }

  /**
   * What WP-CLI finds under each key: shortdesc, longdesc and when are
   * there exactly when the command's value is truthy, the callbacks when
   * they are set, the synopsis when it is not empty, each with that value;
   * nothing else is there.
   */
  lemma ArgsGet(st: CommandState, k: string)
    requires CommandSynopsis(st).Ok?
    ensures ArgsOf(st).Ok?
    ensures Get(ArgsOf(st).value, k) == ArgFor(st.fields, CommandSynopsis(st).value, k)
  {
    var f, synopsis := st.fields, CommandSynopsis(st).value;
    var e1, e2, e3 := TextEntry("shortdesc", f.description), SynopsisEntryOf(synopsis), TextEntry("longdesc", f.usage);
    var e4, e5 := CallbackEntry("before_invoke", f.beforeInvoke), CallbackEntry("after_invoke", f.afterInvoke);
    var e6 := TextEntry("when", f.when);
    assert ArgsFrom(f, CommandSynopsis(st)) == Ok(e1 + e2 + e3 + e4 + e5 + e6);
    GetSix(e1, e2, e3, e4, e5, e6, k);
    EntryKeys(f, synopsis, k);
    if k == "shortdesc" {
    } else if k == "synopsis" {
      assert !HasKey(e1, k);
    } else if k == "longdesc" {
      assert !HasKey(e1, k) && !HasKey(e2, k);
    } else if k == "before_invoke" {
      assert !HasKey(e1, k) && !HasKey(e2, k) && !HasKey(e3, k);
    } else if k == "after_invoke" {
      assert !HasKey(e1, k) && !HasKey(e2, k) && !HasKey(e3, k) && !HasKey(e4, k);
    } else if k == "when" {
      assert !HasKey(e1, k) && !HasKey(e2, k) && !HasKey(e3, k) && !HasKey(e4, k) && !HasKey(e5, k);
    } else {
      assert !HasKey(e1, k) && !HasKey(e2, k) && !HasKey(e3, k) && !HasKey(e4, k) && !HasKey(e5, k) && !HasKey(e6, k);
    }
  }

  /** A lookup in six concatenated parts reads the first part that has the key. */
  lemma GetSix<K, V>(e1: Assoc<K, V>, e2: Assoc<K, V>, e3: Assoc<K, V>, e4: Assoc<K, V>, e5: Assoc<K, V>, e6: Assoc<K, V>, k: K)
    ensures Get(e1 + e2 + e3 + e4 + e5 + e6, k) ==
      if HasKey(e1, k) then Get(e1, k) else if HasKey(e2, k) then Get(e2, k)
      else if HasKey(e3, k) then Get(e3, k) else if HasKey(e4, k) then Get(e4, k)
      else if HasKey(e5, k) then Get(e5, k) else Get(e6, k)
  {
    GetAppend(e1 + e2 + e3 + e4 + e5, e6, k);
    GetAppend(e1 + e2 + e3 + e4, e5, k);
    GetAppend(e1 + e2 + e3, e4, k);
    GetAppend(e1 + e2, e3, k);
    GetAppend(e1, e2, k);
    HasKeyAppend(e1 + e2 + e3 + e4, e5, k);
    HasKeyAppend(e1 + e2 + e3, e4, k);
    HasKeyAppend(e1 + e2, e3, k);
    HasKeyAppend(e1, e2, k);
  }

  /** A command on which nothing was set gives WP-CLI an empty record. */
  lemma NewCommandArgs()
    ensures ArgsOf(CommandState(false, NewCommandFields, [], [])) == Ok([])
  {
    assert CommandSynopsis(CommandState(false, NewCommandFields, [], [])) == Ok([]);
  }

  /** A namespace command gives at most a short and a long description. */
  lemma NamespaceArgs(st: CommandState)
    requires st.isNamespace && Frozen(st)
    ensures ArgsOf(st) == Ok(TextEntry("shortdesc", st.fields.description) + TextEntry("longdesc", st.fields.usage))
  {
    NamespaceSynopsisIsEmpty(st);
    var f := st.fields;
    assert SynopsisEntryOf([]) == [] && CallbackEntry("before_invoke", f.beforeInvoke) == []
      && CallbackEntry("after_invoke", f.afterInvoke) == [] && TextEntry("when", f.when) == [];
    var e1, e3 := TextEntry("shortdesc", f.description), TextEntry("longdesc", f.usage);
    assert ArgsFrom(f, CommandSynopsis(st)) == Ok(e1 + [] + e3 + [] + [] + []);
    assert e1 + [] + e3 + [] + [] + [] == e1 + e3;
  }

  /** What `getHandler` gives WP-CLI. */
  datatype WpCliHandler =
    /** A closure over `handle`, standing in for the command's callable. */
    | HandleClosure(callable: Callable)
    /** The namespace class name, passed on as it is. */
    | NamespaceClass

  /** What `handle` ends with: `halt(status)`, or the status returned. */
  datatype Exit = Halted(status: int) | Returned(status: int)

  /** The exit status a handler result stands for: its integer value clamped to [0, 255]. */
  function ExitStatus(result: Value): (status: int)
    ensures 0 <= status <= 255
  {
    if result.Int? then Max(0, Min(result.i, 255)) else 0
  }

  function Min(a: int, b: int): int { if a <= b then a else b }
  function Max(a: int, b: int): int { if a >= b then a else b }

  class CommandAddition {
    const command: Command
    var autoExit: bool

    constructor (command: Command)
      ensures this.command == command && autoExit
    {
      this.command := command;
      autoExit := true;
    }

    method SetAutoExit(autoExit: bool)
      modifies this
      ensures this.autoExit == autoExit
    {
      this.autoExit := autoExit;
    }

    /** `getHandler`: a callable is wrapped in a closure over `handle`, the namespace marker is not. */
    function GetHandler(ghost chain: seq<Command>): (r: Result<WpCliHandler>)
      reads command, chain
      requires ChainFrom(command, chain)
      ensures r.Ok? <==> command.GetHandler(chain).Ok?
      ensures r.Err? ==> r.error == command.GetHandler(chain).error
      ensures command.handler == Some(NamespaceMarker) ==> r == Ok(NamespaceClass)
      ensures forall c :: command.handler == Some(Callback(c)) ==> r == Ok(HandleClosure(c))
    {
      var h :- command.GetHandler(chain);
      match h
      case Callback(c) => Ok(HandleClosure(c))
      case NamespaceMarker => Ok(NamespaceClass)
    }

    /**
     * `handle`, from the value the invocation strategy returned: anything
     * but a non-negative integer becomes 0, anything above 255 becomes 255;
     * with auto-exit the process halts with that status, otherwise it is
     * returned.
     */
    method Handle(result: Value) returns (exit: Exit)
      ensures exit.Halted? <==> autoExit
      ensures exit.status == ExitStatus(result)
      ensures 0 <= exit.status <= 255
      ensures result.Int? && 0 <= result.i <= 255 ==> exit.status == result.i
      ensures (!result.Int? || result.i < 0) ==> exit.status == 0
      ensures result.Int? && result.i > 255 ==> exit.status == 255
    {
      var status: int;
      if !result.Int? || result.i < 0 {
        status := 0;
      } else {
        status := result.i;
      }
      if status > 255 {
        status := 255;
      }
      if autoExit {
        exit := Halted(status);
      } else {
        exit := Returned(status);
      }
    }
  }
}
