// Input resolution: `WpCliInput` binds WP-CLI's raw positional list and
// named map to a command's declared arguments, options and flags, and
// `ArrayInput` answers lookups on the three buckets and flattens them back.

module Input {
  import opened Wrappers
  import opened PhpArrays
  import opened Parameters
  import opened Commands

  // ---------------------------------------------------------------------------
  // Error messages that name the command

  /** The message of each error below interpolates `getName()`, which throws first when it fails. */
  function TooManyArgsError(name: Result<string>): Error {
    if name.Ok? then TooManyArgs(name.value) else name.error
  }

  function MissingArgumentError(argument: string, name: Result<string>): Error {
    if name.Ok? then MissingRequiredArgument(argument, name.value) else name.error
  }

  function MissingOptionError(option: string, name: Result<string>): Error {
    if name.Ok? then MissingRequiredOption(option, name.value) else name.error
  }

  function TooManyOptionsError(name: Result<string>): Error {
    if name.Ok? then TooManyOptions(name.value) else name.error
  }

  // ---------------------------------------------------------------------------
  // `processArgs`

  function Strs(args: seq<string>): (r: seq<Value>)
    ensures |r| == |args| && forall i :: 0 <= i < |args| ==> r[i] == Str(args[i])
  {
    seq(|args|, i requires 0 <= i < |args| => Str(args[i]))
  }

  /** The check after the loop: every argument left over must be optional. */
  function RequireRest(acc: Assoc<string, Value>, regs: seq<ArgumentSpec>, name: Result<string>): (r: Result<Assoc<string, Value>>)
    ensures r.Ok? <==> forall k :: 0 <= k < |regs| ==> regs[k].optional
    ensures r.Ok? ==> r.value == acc
    ensures r.Err? ==> exists k :: (0 <= k < |regs| && !regs[k].optional
      && (forall i :: 0 <= i < k ==> regs[i].optional)
      && r.error == MissingArgumentError(regs[k].name, name))
    decreases |regs|
  {
    if regs == [] then Ok(acc)
    else if !regs[0].optional then Err(MissingArgumentError(regs[0].name, name))
    else
      var r := RequireRest(acc, regs[1..], name);
      assert r.Err? ==> exists k :: (0 < k < |regs| && !regs[k].optional
        && (forall i :: 0 <= i < k ==> regs[i].optional)
        && r.error == MissingArgumentError(regs[k].name, name)) by {
        if r.Err? {
          var k :| 0 <= k < |regs[1..]| && !regs[1..][k].optional
            && (forall i :: 0 <= i < k ==> regs[1..][i].optional)
            && r.error == MissingArgumentError(regs[1..][k].name, name);
          assert !regs[k + 1].optional && forall i :: 0 <= i < k + 1 ==> regs[i].optional;
        }
      }
      r
  }

  /**
   * The `while (count($args))` loop from the point where `acc` is bound and
   * `args` and `regs` remain: each declared argument takes one value, a
   * repeating one takes all that are left.
   */
  function BindArgs(acc: Assoc<string, Value>, args: seq<string>, regs: seq<ArgumentSpec>, name: Result<string>): Result<Assoc<string, Value>>
    decreases |args|
  {
    if args == [] then RequireRest(acc, regs, name)
    else if regs == [] then Err(TooManyArgsError(name))
    else if regs[0].repeating then RequireRest(Put(acc, regs[0].name, List(Strs(args))), regs[1..], name)
    else BindArgs(Put(acc, regs[0].name, Str(args[0])), args[1..], regs[1..], name)
  }

  /** The index of the first repeating argument, or `|regs|` when there is none. */
  function FirstRepeating(regs: seq<ArgumentSpec>): (j: nat)
    ensures j <= |regs|
    ensures forall k :: 0 <= k < j ==> !regs[k].repeating
    ensures j < |regs| ==> regs[j].repeating
    decreases |regs|
  {
    if regs == [] || regs[0].repeating then 0 else 1 + FirstRepeating(regs[1..])
  }

  /** Declared names paired with values, in declaration order. */
  function Pairs(regs: seq<ArgumentSpec>, vals: seq<Value>): (r: Assoc<string, Value>)
    requires |regs| == |vals|
    ensures |r| == |regs| && forall i :: 0 <= i < |regs| ==> r[i] == (regs[i].name, vals[i])
  {
    seq(|regs|, i requires 0 <= i < |regs| => (regs[i].name, vals[i]))
  }

  /** More values than declared arguments, and no repeating argument reached to take them. */
  predicate TooManyValues(args: seq<string>, regs: seq<ArgumentSpec>) {
    var j := FirstRepeating(regs);
    !(j < |regs| && j < |args|) && |args| > |regs|
  }

  /**
   * With `j` the first repeating argument: if it is reached it takes every
   * value from position `j` on and the arguments before it one value each;
   * otherwise each value goes to the declared argument at its position.
   */
  function BoundPairs(args: seq<string>, regs: seq<ArgumentSpec>): (p: Assoc<string, Value>)
    requires !TooManyValues(args, regs)
    ensures |p| <= |regs| && forall i :: 0 <= i < |p| ==> p[i].0 == regs[i].name
  {
    var j := FirstRepeating(regs);
    if j < |regs| && j < |args| then Pairs(regs[..j], Strs(args[..j])) + [(regs[j].name, List(Strs(args[j..])))]
    else Pairs(regs[..|args|], Strs(args))
  }

  /**
   * What `processArgs` binds, stated without the loop: too many values fail;
   * otherwise the bound pairs are put in order, and the declared arguments
   * left without a value must all be optional.
   */
  function ArgumentBinding(acc: Assoc<string, Value>, args: seq<string>, regs: seq<ArgumentSpec>, name: Result<string>): Result<Assoc<string, Value>> {
    if TooManyValues(args, regs) then Err(TooManyArgsError(name))
    else
      var p := BoundPairs(args, regs);
      RequireRest(Merge(acc, p), regs[|p|..], name)
  }

  lemma MergeCons(acc: Assoc<string, Value>, x: (string, Value), rest: Assoc<string, Value>)
    ensures Merge(acc, [x] + rest) == Merge(Put(acc, x.0, x.1), rest)
  {
    assert ([x] + rest)[0] == x && ([x] + rest)[1..] == rest;
  }

  lemma PairsCons(regs: seq<ArgumentSpec>, args: seq<string>, n: nat)
    requires 0 < n <= |regs| && n <= |args|
    ensures Pairs(regs[..n], Strs(args[..n])) ==
      [(regs[0].name, Str(args[0]))] + Pairs(regs[1..][..n - 1], Strs(args[1..][..n - 1]))
  {
  }

  /** A first argument that is not repeating takes one value and leaves the rest to the others. */
  lemma ArgumentBindingStep(acc: Assoc<string, Value>, args: seq<string>, regs: seq<ArgumentSpec>, name: Result<string>)
    requires args != [] && regs != [] && !regs[0].repeating
    ensures ArgumentBinding(acc, args, regs, name) ==
      ArgumentBinding(Put(acc, regs[0].name, Str(args[0])), args[1..], regs[1..], name)
  {
    var j := FirstRepeating(regs);
    assert FirstRepeating(regs[1..]) == j - 1;
    if j < |regs| && j < |args| {
      ReachedRepeatingBinding(acc, args, regs, name);
    } else if |args| <= |regs| {
      OneEachBinding(acc, args, regs, name);
    }
  }

  lemma ReachedRepeatingBinding(acc: Assoc<string, Value>, args: seq<string>, regs: seq<ArgumentSpec>, name: Result<string>)
    requires args != [] && regs != [] && !regs[0].repeating
    requires FirstRepeating(regs) < |regs| && FirstRepeating(regs) < |args|
    requires FirstRepeating(regs[1..]) == FirstRepeating(regs) - 1
    ensures ArgumentBinding(acc, args, regs, name) ==
      ArgumentBinding(Put(acc, regs[0].name, Str(args[0])), args[1..], regs[1..], name)
  {
    var j := FirstRepeating(regs);
    ReachedRepeatingStep(acc, args, regs, j);
    assert regs[1..][j - 1 + 1..] == regs[j + 1..];
  }

  lemma OneEachBinding(acc: Assoc<string, Value>, args: seq<string>, regs: seq<ArgumentSpec>, name: Result<string>)
    requires args != [] && |args| <= |regs| && !regs[0].repeating
    requires !(FirstRepeating(regs) < |regs| && FirstRepeating(regs) < |args|)
    requires FirstRepeating(regs[1..]) == FirstRepeating(regs) - 1
    ensures ArgumentBinding(acc, args, regs, name) ==
      ArgumentBinding(Put(acc, regs[0].name, Str(args[0])), args[1..], regs[1..], name)
  {
    OneEachStep(acc, args, regs);
    assert regs[1..][|args[1..]|..] == regs[|args|..];
  }

  lemma ReachedRepeatingStep(acc: Assoc<string, Value>, args: seq<string>, regs: seq<ArgumentSpec>, j: nat)
    requires 0 < j < |regs| && j < |args|
    ensures Merge(acc, Pairs(regs[..j], Strs(args[..j])) + [(regs[j].name, List(Strs(args[j..])))]) ==
      Merge(Put(acc, regs[0].name, Str(args[0])),
        Pairs(regs[1..][..j - 1], Strs(args[1..][..j - 1])) + [(regs[1..][j - 1].name, List(Strs(args[1..][j - 1..])))])
  {
    PairsCons(regs, args, j);
    assert args[1..][j - 1..] == args[j..];
    assert regs[1..][j - 1] == regs[j];
    var x := (regs[0].name, Str(args[0]));
    var rest := Pairs(regs[1..][..j - 1], Strs(args[1..][..j - 1]));
    var last := [(regs[j].name, List(Strs(args[j..])))];
    assert [x] + rest + last == [x] + (rest + last);
    MergeCons(acc, x, rest + last);
  }

  lemma OneEachStep(acc: Assoc<string, Value>, args: seq<string>, regs: seq<ArgumentSpec>)
    requires 0 < |args| <= |regs|
    ensures Merge(acc, Pairs(regs[..|args|], Strs(args))) ==
      Merge(Put(acc, regs[0].name, Str(args[0])), Pairs(regs[1..][..|args[1..]|], Strs(args[1..])))
  {
    PairsCons(regs, args, |args|);
    assert args[..|args|] == args && args[1..][..|args| - 1] == args[1..];
    MergeCons(acc, (regs[0].name, Str(args[0])), Pairs(regs[1..][..|args| - 1], Strs(args[1..])));
  }

  /** The loop and the loop-free statement bind the same arguments and report the same errors. */
  lemma {:induction false} BindArgsIsArgumentBinding(acc: Assoc<string, Value>, args: seq<string>, regs: seq<ArgumentSpec>, name: Result<string>)
    ensures BindArgs(acc, args, regs, name) == ArgumentBinding(acc, args, regs, name)
    decreases |args|
  {
    if args == [] {
      assert regs[..0] == [] && Pairs(regs[..0], Strs(args)) == [];
      assert regs[|args|..] == regs;
    } else if regs == [] {
    } else if regs[0].repeating {
      assert regs[..0] == [] && args[..0] == [] && args[0..] == args;
      assert Pairs(regs[..0], Strs(args[..0])) == [];
      var x := (regs[0].name, List(Strs(args)));
      MergeCons(acc, x, []);
      assert [] + [x] == [x] + [];
    } else {
      BindArgsIsArgumentBinding(Put(acc, regs[0].name, Str(args[0])), args[1..], regs[1..], name);
      ArgumentBindingStep(acc, args, regs, name);
    }
  }

  /** `processArgs` on the command's declared arguments and its full name. */
  method ProcessArgs(args: seq<string>, registered: seq<ArgumentSpec>, name: Result<string>) returns (r: Result<Assoc<string, Value>>)
    ensures r == ArgumentBinding([], args, registered, name)
  {
    BindArgsIsArgumentBinding([], args, registered, name);
    var arguments: Assoc<string, Value> := [];
    var rest := args;
    var regs := registered;
    while |rest| > 0
      invariant BindArgs(arguments, rest, regs, name) == BindArgs([], args, registered, name)
      decreases |rest|
    {
      if regs == [] {
        return Err(TooManyArgsError(name));
      }
      var current := regs[0];
      regs := regs[1..];
      if current.repeating {
        arguments := Put(arguments, current.name, List(Strs(rest)));
        rest := [];
      } else {
        arguments := Put(arguments, current.name, Str(rest[0]));
        rest := rest[1..];
      }
    }
    r := RequireOptional(arguments, regs, name);
  }

  /** The `foreach` after the loop: the first argument left over that is not optional fails. */
  method RequireOptional(acc: Assoc<string, Value>, regs: seq<ArgumentSpec>, name: Result<string>) returns (r: Result<Assoc<string, Value>>)
    ensures r == RequireRest(acc, regs, name)
  {
    var i := 0;
    while i < |regs|
      invariant 0 <= i <= |regs|
      invariant forall k :: 0 <= k < i ==> regs[k].optional
    {
      if !regs[i].optional {
        RequireRestFirst(acc, regs, name, i);
        return Err(MissingArgumentError(regs[i].name, name));
      }
      i := i + 1;
    }
    return Ok(acc);
  }

  /** The first argument left over that is not optional is the one reported. */
  lemma {:induction false} RequireRestFirst(acc: Assoc<string, Value>, regs: seq<ArgumentSpec>, name: Result<string>, i: nat)
    requires i < |regs| && !regs[i].optional && forall k :: 0 <= k < i ==> regs[k].optional
    ensures RequireRest(acc, regs, name) == Err(MissingArgumentError(regs[i].name, name))
    decreases i
  {
    if i > 0 {
      assert regs[0].optional;
      assert regs[1..][i - 1] == regs[i];
      RequireRestFirst(acc, regs[1..], name, i - 1);
    }
  }

  // ---------------------------------------------------------------------------
  // `processAssocArgs`

  /** What the `foreach` over the declared flags and options leaves: options, flags, and the unclaimed entries. */
  datatype Sorted = Sorted(options: Assoc<string, Value>, flags: Assoc<string, Value>, leftover: Assoc<string, Value>)

  /**
   * The `foreach` over `getOptions()` from the point where `acc` holds what
   * is claimed so far, `assoc` the working copy with claimed names unset and
   * `ps` the parameters still to visit.
   */
  function SortParams(acc: Sorted, ps: seq<ParamSpec>, name: Result<string>): Result<Sorted>
    decreases |ps|
  {
    if ps == [] then Ok(acc)
    else
      var n := ps[0].Name();
      var value := Get(acc.leftover, n);
      if value.None? then
        if ps[0].OptionValue? && !ps[0].option.optional then Err(MissingOptionError(n, name))
        else SortParams(acc, ps[1..], name)
      else if ps[0].OptionValue? then
        SortParams(acc.(options := Put(acc.options, n, value.value), leftover := Remove(acc.leftover, n)), ps[1..], name)
      else
        SortParams(acc.(flags := Put(acc.flags, n, value.value), leftover := Remove(acc.leftover, n)), ps[1..], name)
  }

  /** The key under which unclaimed entries are kept when the command accepts arbitrary options. */
  const ArbitraryOptionsKey := "arbitraryOptions"

  /** `processAssocArgs`: the options and the flags, or the first error. */
  function AssocBinding(assoc: Assoc<string, Value>, ps: seq<ParamSpec>, accept: bool, name: Result<string>): Result<(Assoc<string, Value>, Assoc<string, Value>)> {
    var sorted := SortParams(Sorted([], [], assoc), ps, name);
    if sorted.Err? then Err(sorted.error)
    else if sorted.value.leftover == [] then Ok((sorted.value.options, sorted.value.flags))
    else if accept then Ok((Put(sorted.value.options, ArbitraryOptionsKey, Dict(sorted.value.leftover)), sorted.value.flags))
    else Err(TooManyOptionsError(name))
  }

  /** The names of the declared options (not flags), in order. */
  function OptionNames(ps: seq<ParamSpec>): (ns: seq<string>)
    ensures forall n :: n in ns <==> exists k :: 0 <= k < |ps| && ps[k].OptionValue? && ps[k].Name() == n
  {
    if ps == [] then []
    else
      var rest := OptionNames(ps[1..]);
      assert forall n :: n in rest <==> exists k :: 0 < k < |ps| && ps[k].OptionValue? && ps[k].Name() == n by {
        forall n ensures n in rest <==> exists k :: 0 < k < |ps| && ps[k].OptionValue? && ps[k].Name() == n {
          if n in rest {
            var k :| 0 <= k < |ps[1..]| && ps[1..][k].OptionValue? && ps[1..][k].Name() == n;
            assert ps[k + 1] == ps[1..][k];
          }
          if exists k :: 0 < k < |ps| && ps[k].OptionValue? && ps[k].Name() == n {
            var k :| 0 < k < |ps| && ps[k].OptionValue? && ps[k].Name() == n;
            assert ps[1..][k - 1] == ps[k];
          }
        }
      }
      (if ps[0].OptionValue? then [ps[0].Name()] else []) + rest
  }

  /** The names of the declared flags, in order. */
  function FlagNames(ps: seq<ParamSpec>): (ns: seq<string>)
    ensures forall n :: n in ns <==> exists k :: 0 <= k < |ps| && ps[k].FlagValue? && ps[k].Name() == n
  {
    if ps == [] then []
    else
      var rest := FlagNames(ps[1..]);
      assert forall n :: n in rest <==> exists k :: 0 < k < |ps| && ps[k].FlagValue? && ps[k].Name() == n by {
        forall n ensures n in rest <==> exists k :: 0 < k < |ps| && ps[k].FlagValue? && ps[k].Name() == n {
          if n in rest {
            var k :| 0 <= k < |ps[1..]| && ps[1..][k].FlagValue? && ps[1..][k].Name() == n;
            assert ps[k + 1] == ps[1..][k];
          }
          if exists k :: 0 < k < |ps| && ps[k].FlagValue? && ps[k].Name() == n {
            var k :| 0 < k < |ps| && ps[k].FlagValue? && ps[k].Name() == n;
            assert ps[1..][k - 1] == ps[k];
          }
        }
      }
      (if ps[0].FlagValue? then [ps[0].Name()] else []) + rest
  }

  /** A required option that was not passed. */
  predicate MissingOption(assoc: Assoc<string, Value>, p: ParamSpec) {
    p.OptionValue? && !p.option.optional && !HasKey(assoc, p.Name())
  }

  lemma HasKeyRemove(l: Assoc<string, Value>, n: string, m: string)
    requires m != n
    ensures HasKey(Remove(l, n), m) <==> HasKey(l, m)
    ensures Get(Remove(l, n), m) == Get(l, m)
  {
    RemoveGet(l, n, m);
  }

  lemma DistinctTail(ps: seq<ParamSpec>)
    requires ps != [] && Distinct(ParamNames(ps))
    ensures Distinct(ParamNames(ps[1..]))
    ensures ps[0].Name() !in ParamNames(ps[1..])
  {
    assert ParamNames(ps)[1..] == ParamNames(ps[1..]);
  }

  /** No required option among `ps` is missing from `l`. */
  predicate NoneMissing(l: Assoc<string, Value>, ps: seq<ParamSpec>) {
    forall k :: 0 <= k < |ps| ==> !MissingOption(l, ps[k])
  }

  /** `ps[k]` is the first required option missing from `l`. */
  predicate FirstMissingIs(l: Assoc<string, Value>, ps: seq<ParamSpec>, k: int) {
    0 <= k < |ps| && MissingOption(l, ps[k]) && NoneMissing(l, ps[..k])
  }

  /**
   * The `foreach` fails exactly when a required option was not passed, and
   * then it reports the first such option; unsetting a claimed name never
   * hides another, since the names of a command are distinct.
   */
  lemma {:induction false} SortParamsFails(acc: Sorted, ps: seq<ParamSpec>, name: Result<string>)
    requires Distinct(ParamNames(ps))
    ensures SortParams(acc, ps, name).Ok? <==> NoneMissing(acc.leftover, ps)
    ensures SortParams(acc, ps, name).Err? ==> exists k :: (FirstMissingIs(acc.leftover, ps, k)
      && SortParams(acc, ps, name).error == MissingOptionError(ps[k].Name(), name))
    decreases |ps|
  {
    if ps != [] {
      DistinctTail(ps);
      var n := ps[0].Name();
      var l := acc.leftover;
      var value := Get(l, n);
      if MissingOption(l, ps[0]) {
        assert FirstMissingIs(l, ps, 0);
      } else if value.None? {
        SortParamsFails(acc, ps[1..], name);
        ShiftMissing(l, l, ps);
      } else {
        var next := if ps[0].OptionValue? then acc.(options := Put(acc.options, n, value.value), leftover := Remove(l, n))
          else acc.(flags := Put(acc.flags, n, value.value), leftover := Remove(l, n));
        assert SortParams(acc, ps, name) == SortParams(next, ps[1..], name);
        SortParamsFails(next, ps[1..], name);
        forall m | m in ParamNames(ps[1..]) ensures HasKey(Remove(l, n), m) <==> HasKey(l, m) {
          HasKeyRemove(l, n, m);
        }
        ShiftMissing(l, Remove(l, n), ps);
      }
    }
  }

  /** Moving `NoneMissing` and `FirstMissingIs` from the tail to the whole list. */
  lemma ShiftMissing(l: Assoc<string, Value>, l': Assoc<string, Value>, ps: seq<ParamSpec>)
    requires ps != [] && !MissingOption(l, ps[0])
    requires forall m :: m in ParamNames(ps[1..]) ==> (HasKey(l', m) <==> HasKey(l, m))
    ensures NoneMissing(l', ps[1..]) <==> NoneMissing(l, ps)
    ensures forall k :: FirstMissingIs(l', ps[1..], k) ==> FirstMissingIs(l, ps, k + 1)
  {
    assert forall k :: 0 <= k < |ps[1..]| ==> ParamNames(ps[1..])[k] == ps[1..][k].Name();
    forall k | FirstMissingIs(l', ps[1..], k) ensures FirstMissingIs(l, ps, k + 1) {
      assert ps[..k + 1] == [ps[0]] + ps[1..][..k];
    }
  }

  lemma KindNamesAreNames(ps: seq<ParamSpec>, j: string)
    ensures j in OptionNames(ps) ==> j in ParamNames(ps)
    ensures j in FlagNames(ps) ==> j in ParamNames(ps)
    ensures j in ParamNames(ps) ==> j in OptionNames(ps) || j in FlagNames(ps)
  {
    if j in ParamNames(ps) {
      var k :| 0 <= k < |ps| && ParamNames(ps)[k] == j;
      assert ps[k].FlagValue? || ps[k].OptionValue?;
    }
  }

  /**
   * What the `foreach` leaves under a key `j`: a declared option or flag takes
   * the value passed for it, and its entry leaves the working copy; every
   * entry under an undeclared key stays there.
   */
  lemma {:induction false} SortParamsGet(acc: Sorted, ps: seq<ParamSpec>, name: Result<string>, j: string)
    requires Distinct(ParamNames(ps)) && SortParams(acc, ps, name).Ok?
    ensures Get(SortParams(acc, ps, name).value.leftover, j) ==
      if j in ParamNames(ps) then None else Get(acc.leftover, j)
    ensures Get(SortParams(acc, ps, name).value.options, j) ==
      if j in OptionNames(ps) && HasKey(acc.leftover, j) then Get(acc.leftover, j) else Get(acc.options, j)
    ensures Get(SortParams(acc, ps, name).value.flags, j) ==
      if j in FlagNames(ps) && HasKey(acc.leftover, j) then Get(acc.leftover, j) else Get(acc.flags, j)
    decreases |ps|
  {
    if ps != [] {
      DistinctTail(ps);
      KindNamesAreNames(ps[1..], j);
      var n := ps[0].Name();
      var l := acc.leftover;
      var value := Get(l, n);
      if value.None? {
        SortParamsGet(acc, ps[1..], name, j);
      } else {
        var next := if ps[0].OptionValue? then acc.(options := Put(acc.options, n, value.value), leftover := Remove(l, n))
          else acc.(flags := Put(acc.flags, n, value.value), leftover := Remove(l, n));
        assert SortParams(acc, ps, name) == SortParams(next, ps[1..], name);
        SortParamsGet(next, ps[1..], name, j);
        RemoveGet(l, n, j);
        PutGet(acc.options, n, value.value, j);
        PutGet(acc.flags, n, value.value, j);
      }
    }
  }

  lemma EmptyIffNoKey(l: Assoc<string, Value>)
    ensures l == [] <==> forall j :: !HasKey(l, j)
  {
    if l != [] {
      HasKeyAt(l, 0);
    }
  }

  /**
   * `processAssocArgs` succeeds exactly when every required option was passed
   * and either the command accepts arbitrary options or every key passed is
   * a declared flag or option; a missing option is reported before
   * unclaimed keys are.
   */
  lemma AssocBindingOk(assoc: Assoc<string, Value>, ps: seq<ParamSpec>, accept: bool, name: Result<string>)
    requires Distinct(ParamNames(ps))
    ensures AssocBinding(assoc, ps, accept, name).Ok? <==>
      NoneMissing(assoc, ps) && (accept || forall j :: HasKey(assoc, j) ==> j in ParamNames(ps))
    ensures !NoneMissing(assoc, ps) ==> exists k :: (FirstMissingIs(assoc, ps, k)
      && AssocBinding(assoc, ps, accept, name) == Err(MissingOptionError(ps[k].Name(), name)))
  {
    var acc := Sorted([], [], assoc);
    SortParamsFails(acc, ps, name);
    var sorted := SortParams(acc, ps, name);
    if sorted.Ok? {
      var l := sorted.value.leftover;
      EmptyIffNoKey(l);
      forall j ensures HasKey(l, j) <==> HasKey(assoc, j) && j !in ParamNames(ps) {
        SortParamsGet(acc, ps, name, j);
      }
    }
  }

  /**
   * Under every key, the flags hold exactly the values passed for declared
   * flags and the options those passed for declared options; with unclaimed
   * keys accepted, the options also hold them, in one array under
   * `arbitraryOptions`.
   */
  lemma AssocBindingGet(assoc: Assoc<string, Value>, ps: seq<ParamSpec>, accept: bool, name: Result<string>, j: string)
    requires Distinct(ParamNames(ps)) && AssocBinding(assoc, ps, accept, name).Ok?
    ensures Get(AssocBinding(assoc, ps, accept, name).value.1, j) ==
      if j in FlagNames(ps) then Get(assoc, j) else None
    ensures j != ArbitraryOptionsKey ==> (Get(AssocBinding(assoc, ps, accept, name).value.0, j) ==
      if j in OptionNames(ps) then Get(assoc, j) else None)
    ensures ArbitraryOptionsKey !in ParamNames(ps) ==>
      var arbitrary := Get(AssocBinding(assoc, ps, accept, name).value.0, ArbitraryOptionsKey);
      arbitrary.Some? ==> (arbitrary.value.Dict? &&
        Get(arbitrary.value.entries, j) == if j in ParamNames(ps) then None else Get(assoc, j))
  {
    var acc := Sorted([], [], assoc);
    var sorted := SortParams(acc, ps, name).value;
    SortParamsGet(acc, ps, name, j);
    SortParamsGet(acc, ps, name, ArbitraryOptionsKey);
    KindNamesAreNames(ps, ArbitraryOptionsKey);
    if sorted.leftover != [] {
      PutGet(sorted.options, ArbitraryOptionsKey, Dict(sorted.leftover), j);
      PutGet(sorted.options, ArbitraryOptionsKey, Dict(sorted.leftover), ArbitraryOptionsKey);
    }
  }

  /** `processAssocArgs` on the command's declared flags and options. */
  method ProcessAssocArgs(assocArgs: Assoc<string, Value>, params: seq<ParamSpec>, accept: bool, name: Result<string>)
    returns (r: Result<(Assoc<string, Value>, Assoc<string, Value>)>)
    ensures r == AssocBinding(assocArgs, params, accept, name)
  {
    var options: Assoc<string, Value> := [];
    var flags: Assoc<string, Value> := [];
    var assoc := assocArgs;
    for i := 0 to |params|
      invariant SortParams(Sorted(options, flags, assoc), params[i..], name) == SortParams(Sorted([], [], assocArgs), params, name)
    {
      var option := params[i];
      var n := option.Name();
      assert params[i..][1..] == params[i + 1..];
      if !HasKey(assoc, n) {
        if option.OptionValue? && !option.option.optional {
          return Err(MissingOptionError(n, name));
        }
        continue;
      }
      var value := Get(assoc, n).value;
      if option.OptionValue? {
        options := Put(options, n, value);
      } else {
        flags := Put(flags, n, value);
      }
      assoc := Remove(assoc, n);
    }
    assert params[|params|..] == [];
    if assoc != [] {
      if accept {
        options := Put(options, ArbitraryOptionsKey, Dict(assoc));
      } else {
        return Err(TooManyOptionsError(name));
      }
    }
    return Ok((options, flags));
  }

  // ---------------------------------------------------------------------------
  // The inputs

  /**
   * `ArrayInput` holds the three buckets; `WpCliInput` extends it with the
   * raw lists WP-CLI passed, which its two `getWpCli*` overrides return.
   */
  datatype Input =
    | ArrayInput(arguments: Assoc<string, Value>, options: Assoc<string, Value>, flags: Assoc<string, Value>)
    | WpCliInput(rawArgs: seq<string>, rawAssocArgs: Assoc<string, Value>,
        arguments: Assoc<string, Value>, options: Assoc<string, Value>, flags: Assoc<string, Value>)
  {
    /** `get`: the first bucket with the key wins (arguments, then options, then flags), even when it stores null. */
    function Get(name: string, default: Value): Value {
      if HasKey(arguments, name) then PhpArrays.Get(arguments, name).value
      else if HasKey(options, name) then PhpArrays.Get(options, name).value
      else if HasKey(flags, name) then PhpArrays.Get(flags, name).value
      else default
    }

    /** `getArgument`. */
    function GetArgument(name: string, default: Value): Value {
      Coalesce(PhpArrays.Get(arguments, name), default)
    }

    /** `getOption`. */
    function GetOption(name: string, default: Value): Value {
      Coalesce(PhpArrays.Get(options, name), default)
    }

    /** `getFlag`. */
    function GetFlag(name: string, default: Value): Value {
      Coalesce(PhpArrays.Get(flags, name), default)
    }

    predicate HasArgument(name: string) {
      HasKey(arguments, name)
    }

    predicate HasOption(name: string) {
      HasKey(options, name)
    }

    predicate HasFlag(name: string) {
      HasKey(flags, name)
    }

    /** `getWpCliArguments`: a `WpCliInput` returns the raw list; an `ArrayInput` flattens its arguments. */
    function WpCliArguments(): seq<Value> {
      match this
      case WpCliInput(rawArgs, _, _, _, _) => Strs(rawArgs)
      case ArrayInput(arguments, _, _) => Flatten(arguments)
    }

    method GetWpCliArguments() returns (r: seq<Value>)
      ensures r == WpCliArguments()
    {
      if WpCliInput? {
        return Strs(rawArgs);
      }
      r := [];
      for i := 0 to |arguments|
        invariant r == Flatten(arguments[..i])
      {
        var elements := Elements(arguments[i].1);
        ghost var before := r;
        for k := 0 to |elements|
          invariant r == before + elements[..k]
        {
          r := r + [elements[k]];
        }
        assert elements[..|elements|] == elements;
        FlattenSnoc(arguments[..i], arguments[i]);
        assert arguments[..i + 1] == arguments[..i] + [arguments[i]];
      }
      assert arguments[..|arguments|] == arguments;
    }

    /**
     * `getWpCliAssociativeArguments`: a `WpCliInput` returns the raw map; an
     * `ArrayInput` splices array options in, puts scalar ones under their
     * names, then puts the flags.
     */
    function WpCliAssoc(): Assoc<string, Value> {
      match this
      case WpCliInput(_, rawAssocArgs, _, _, _) => rawAssocArgs
      case ArrayInput(_, options, flags) => Merge(OptionsAssoc([], options), flags)
    }

    method GetWpCliAssociativeArguments() returns (r: Assoc<string, Value>)
      ensures r == WpCliAssoc()
    {
      if WpCliInput? {
        return rawAssocArgs;
      }
      r := [];
      for i := 0 to |options|
        invariant OptionsAssoc(r, options[i..]) == OptionsAssoc([], options)
      {
        assert options[i..][1..] == options[i + 1..];
        var (name, option) := options[i];
        if option.Dict? {
          r := Merge(r, option.entries);
        } else if !option.List? {
          r := Put(r, name, option);
        }
      }
      assert options[|options|..] == [];
      ghost var spliced := r;
      for i := 0 to |flags|
        invariant Merge(r, flags[i..]) == Merge(spliced, flags)
      {
        assert flags[i..][1..] == flags[i + 1..];
        r := Put(r, flags[i].0, flags[i].1);
      }
      assert flags[|flags|..] == [];
    }
  }

  /**
   * One option of the loop of `getWpCliAssociativeArguments`: an array is
   * merged in, anything else is put under the option's name. A list's items
   * would take fresh integer keys, which a string-keyed map does not carry.
   */
  function SpliceOption(acc: Assoc<string, Value>, name: string, option: Value): Assoc<string, Value> {
    match option
    case Dict(entries) => Merge(acc, entries)
    case List(_) => acc
    case _ => Put(acc, name, option)
  }

  /** The options loop of `getWpCliAssociativeArguments` from `acc` on. */
  function OptionsAssoc(acc: Assoc<string, Value>, options: Assoc<string, Value>): Assoc<string, Value>
    decreases |options|
  {
    if options == [] then acc
    else OptionsAssoc(SpliceOption(acc, options[0].0, options[0].1), options[1..])
  }

  /** The loop body of `getWpCliArguments`: an array's elements, or the value alone. */
  function Elements(v: Value): seq<Value> {
    match v
    case List(items) => items
    case Dict(entries) => Values(entries)
    case _ => [v]
  }

  function Values(entries: Assoc<string, Value>): (vs: seq<Value>)
    ensures |vs| == |entries| && forall i :: 0 <= i < |entries| ==> vs[i] == entries[i].1
  {
    seq(|entries|, i requires 0 <= i < |entries| => entries[i].1)
  }

  /** Every argument's elements, in order. */
  function Flatten(arguments: Assoc<string, Value>): seq<Value> {
    if arguments == [] then [] else Elements(arguments[0].1) + Flatten(arguments[1..])
  }

  lemma {:induction false} FlattenAppend(a: Assoc<string, Value>, b: Assoc<string, Value>)
    ensures Flatten(a + b) == Flatten(a) + Flatten(b)
  {
    if a != [] {
      assert (a + b)[1..] == a[1..] + b;
      FlattenAppend(a[1..], b);
    } else {
      assert a + b == b;
    }
  }

  lemma FlattenSnoc(a: Assoc<string, Value>, x: (string, Value))
    ensures Flatten(a + [x]) == Flatten(a) + Elements(x.1)
  {
    FlattenAppend(a, [x]);
  }

  /** PHP's `$a[$k] ?? $default`: a missing key and a stored null both give the default. */
  function Coalesce(v: Option<Value>, default: Value): (r: Value)
    ensures v.Some? && v.value != Null ==> r == v.value
    ensures v.None? || v.value == Null ==> r == default
  {
    if v.Some? && v.value != Null then v.value else default
  }

  /** Nothing in the buckets is null, as with every input `WpCliInput` builds. */
  predicate NoNulls(input: Input) {
    && (forall i :: 0 <= i < |input.arguments| ==> input.arguments[i].1 != Null)
    && (forall i :: 0 <= i < |input.options| ==> input.options[i].1 != Null)
    && (forall i :: 0 <= i < |input.flags| ==> input.flags[i].1 != Null)
  }

  /**
   * Without nulls, `get` is the three typed getters chained through their
   * defaults; with a null stored, `get` returns it where the getter returns
   * the default.
   */
  lemma GetIsChainedGetters(input: Input, name: string, default: Value)
    requires NoNulls(input)
    ensures input.Get(name, default) == input.GetArgument(name, input.GetOption(name, input.GetFlag(name, default)))
  {
  }

  lemma StoredNullDiffers(input: Input, name: string, default: Value)
    requires PhpArrays.Get(input.arguments, name) == Some(Null) && default != Null
    ensures input.Get(name, default) == Null && input.GetArgument(name, default) == default
  {
  }

  /** `new WpCliInput($args, $assocArgs, $command)`: positional values are bound first, then named ones. */
  function WpCliInputOf(args: seq<string>, assocArgs: Assoc<string, Value>, st: CommandState, name: Result<string>): Result<Input> {
    var arguments := ArgumentBinding([], args, st.arguments, name);
    if arguments.Err? then Err(arguments.error)
    else
      var bound := AssocBinding(assocArgs, st.params, st.fields.acceptArbitraryOptions, name);
      if bound.Err? then Err(bound.error)
      else Ok(WpCliInput(args, assocArgs, arguments.value, bound.value.0, bound.value.1))
  }

  /** The constructor, reading the command's arguments, flags and options and, for messages, its full name. */
  method NewWpCliInput(args: seq<string>, assocArgs: Assoc<string, Value>, command: Command, ghost chain: seq<Command>)
    returns (r: Result<Input>)
    requires ChainFrom(command, chain)
    ensures r == WpCliInputOf(args, assocArgs, command.State(), FullName(command, chain))
  {
    var st := command.State();
    var name := FullName(command, chain);
    r := BuildWpCliInput(args, assocArgs, st, name);
    ArgumentSpecsFramed(command.arguments);
    ParamSpecsFramed(command.options);
  }

  /** The constructor's body on the command read into a value. */
  method BuildWpCliInput(args: seq<string>, assocArgs: Assoc<string, Value>, st: CommandState, name: Result<string>)
    returns (r: Result<Input>)
    ensures r == WpCliInputOf(args, assocArgs, st, name)
  {
    var arguments := ProcessArgs(args, st.arguments, name);
    if arguments.Err? {
      return Err(arguments.error);
    }
    var bound := ProcessAssocArgs(assocArgs, st.params, st.fields.acceptArbitraryOptions, name);
    if bound.Err? {
      return Err(bound.error);
    }
    return Ok(WpCliInput(args, assocArgs, arguments.value, bound.value.0, bound.value.1));
  }

  /**
   * What a command receives: on a well-formed command, a name passed for a
   * declared flag or option is found by `get` under that name, since no
   * argument shares it.
   */
  lemma WpCliInputGetsDeclared(args: seq<string>, assocArgs: Assoc<string, Value>, st: CommandState, name: Result<string>, j: string, default: Value)
    requires WellFormed(st.arguments, st.params) && WpCliInputOf(args, assocArgs, st, name).Ok?
    requires j in ParamNames(st.params) && j != ArbitraryOptionsKey && HasKey(assocArgs, j)
    ensures WpCliInputOf(args, assocArgs, st, name).value.Get(j, default) == PhpArrays.Get(assocArgs, j).value
  {
    var input := WpCliInputOf(args, assocArgs, st, name).value;
    AssocBindingGet(assocArgs, st.params, st.fields.acceptArbitraryOptions, name, j);
    KindNamesAreNames(st.params, j);
    ArgumentKeys([], args, st.arguments, name, j);
  }

  /** Arguments are bound only under names of declared arguments. */
  lemma ArgumentKeys(acc: Assoc<string, Value>, args: seq<string>, regs: seq<ArgumentSpec>, name: Result<string>, j: string)
    requires ArgumentBinding(acc, args, regs, name).Ok? && j !in ArgumentNames(regs)
    ensures HasKey(ArgumentBinding(acc, args, regs, name).value, j) == HasKey(acc, j)
  {
    var pairs := BoundPairs(args, regs);
    MergeGet(acc, pairs, j);
  }

  /** Putting keys that are distinct and new appends them. */
  lemma {:induction false} MergeFresh(a: Assoc<string, Value>, b: Assoc<string, Value>)
    requires forall i, k :: 0 <= i < k < |b| ==> b[i].0 != b[k].0
    requires forall i :: 0 <= i < |b| ==> !HasKey(a, b[i].0)
    ensures Merge(a, b) == a + b
    decreases |b|
  {
    if b != [] {
      var a' := a + [b[0]];
      assert Keys(a') == Keys(a) + [b[0].0];
      assert forall i :: 0 <= i < |b[1..]| ==> !HasKey(a', b[1..][i].0) by {
        forall i | 0 <= i < |b[1..]| ensures !HasKey(a', b[1..][i].0) {
          assert b[1..][i] == b[i + 1];
        }
      }
      MergeFresh(a', b[1..]);
      AppendHead(a, b);
    }
  }

  lemma AppendHead<T>(a: seq<T>, b: seq<T>)
    requires b != []
    ensures (a + [b[0]]) + b[1..] == a + b
  {
    var l := (a + [b[0]]) + b[1..];
    forall i | 0 <= i < |l| ensures l[i] == (a + b)[i] {
      if i > |a| {
        assert l[i] == b[1..][i - |a| - 1];
      }
    }
  }

  lemma {:induction false} FlattenPairs(regs: seq<ArgumentSpec>, args: seq<string>)
    requires |regs| == |args|
    ensures Flatten(Pairs(regs, Strs(args))) == Strs(args)
    decreases |args|
  {
    if args != [] {
      FlattenPairs(regs[1..], args[1..]);
      assert Pairs(regs, Strs(args))[1..] == Pairs(regs[1..], Strs(args[1..]));
      assert Strs(args) == [Str(args[0])] + Strs(args[1..]);
    }
  }

  /**
   * Flattening the arguments `processArgs` bound gives back the positional
   * list it was given: the inherited `getWpCliArguments` agrees with the
   * `WpCliInput` override that returns the raw list.
   */
  lemma ArgumentsRoundTrip(args: seq<string>, regs: seq<ArgumentSpec>, name: Result<string>)
    requires Distinct(ArgumentNames(regs)) && ArgumentBinding([], args, regs, name).Ok?
    ensures Flatten(ArgumentBinding([], args, regs, name).value) == Strs(args)
  {
    var p := BoundPairs(args, regs);
    BoundPairsDistinct(args, regs);
    MergeFresh([], p);
    assert [] + p == p;
    FlattenBoundPairs(args, regs);
  }

  lemma BoundPairsDistinct(args: seq<string>, regs: seq<ArgumentSpec>)
    requires Distinct(ArgumentNames(regs)) && !TooManyValues(args, regs)
    ensures forall i, k :: 0 <= i < k < |BoundPairs(args, regs)| ==> BoundPairs(args, regs)[i].0 != BoundPairs(args, regs)[k].0
  {
    var p := BoundPairs(args, regs);
    assert forall i :: 0 <= i < |p| ==> ArgumentNames(regs)[i] == p[i].0;
  }

  lemma FlattenBoundPairs(args: seq<string>, regs: seq<ArgumentSpec>)
    requires !TooManyValues(args, regs)
    ensures Flatten(BoundPairs(args, regs)) == Strs(args)
  {
    var j := FirstRepeating(regs);
    if j < |regs| && j < |args| {
      var head := Pairs(regs[..j], Strs(args[..j]));
      FlattenPairs(regs[..j], args[..j]);
      FlattenSnoc(head, (regs[j].name, List(Strs(args[j..]))));
      assert Strs(args[..j]) + Strs(args[j..]) == Strs(args);
    } else {
      FlattenPairs(regs[..|args|], args);
    }
  }

  /** The two `getWpCliArguments` agree on every input `WpCliInput` builds for a well-formed command. */
  lemma WpCliArgumentsAgree(args: seq<string>, assocArgs: Assoc<string, Value>, st: CommandState, name: Result<string>)
    requires WellFormed(st.arguments, st.params) && WpCliInputOf(args, assocArgs, st, name).Ok?
    ensures var input := WpCliInputOf(args, assocArgs, st, name).value;
      ArrayInput(input.arguments, input.options, input.flags).WpCliArguments() == input.WpCliArguments()
  {
    ArgumentsRoundTrip(args, st.arguments, name);
  }

  /** No value is an array: what WP-CLI passes as named arguments (strings and booleans). */
  predicate Scalars(m: Assoc<string, Value>) {
    forall i :: 0 <= i < |m| ==> !IsArray(m[i].1)
  }

  lemma {:induction false} PutScalars(m: Assoc<string, Value>, k: string, v: Value)
    requires Scalars(m) && !IsArray(v)
    ensures Scalars(Put(m, k, v))
  {
    if m != [] && m[0].0 != k {
      PutScalars(m[1..], k, v);
    }
  }

  lemma {:induction false} RemoveScalars(m: Assoc<string, Value>, k: string)
    requires Scalars(m)
    ensures Scalars(Remove(m, k))
  {
    if m != [] {
      RemoveScalars(m[1..], k);
    }
  }

  lemma GetScalar(m: Assoc<string, Value>, k: string)
    requires Scalars(m) && HasKey(m, k)
    ensures !IsArray(Get(m, k).value)
  {
  }

  /** The sorted options and flags keep unique keys and scalar values, and the working copy too. */
  lemma {:induction false} SortParamsShape(acc: Sorted, ps: seq<ParamSpec>, name: Result<string>)
    requires SortParams(acc, ps, name).Ok?
    requires UniqueKeys(acc.options) && UniqueKeys(acc.flags) && UniqueKeys(acc.leftover)
    requires Scalars(acc.options) && Scalars(acc.leftover)
    ensures var out := SortParams(acc, ps, name).value;
      UniqueKeys(out.options) && UniqueKeys(out.flags) && UniqueKeys(out.leftover) && Scalars(out.options) && Scalars(out.leftover)
    decreases |ps|
  {
    if ps != [] {
      var n := ps[0].Name();
      var l := acc.leftover;
      var value := Get(l, n);
      if value.None? {
        SortParamsShape(acc, ps[1..], name);
      } else {
        GetScalar(l, n);
        RemoveKeepsUnique(l, n);
        RemoveScalars(l, n);
        PutKeepsUnique(acc.options, n, value.value);
        PutKeepsUnique(acc.flags, n, value.value);
        PutScalars(acc.options, n, value.value);
        var next := if ps[0].OptionValue? then acc.(options := Put(acc.options, n, value.value), leftover := Remove(l, n))
          else acc.(flags := Put(acc.flags, n, value.value), leftover := Remove(l, n));
        assert SortParams(acc, ps, name) == SortParams(next, ps[1..], name);
        SortParamsShape(next, ps[1..], name);
      }
    }
  }

  /** On scalar options the options loop is `array_merge`. */
  lemma {:induction false} OptionsAssocScalars(acc: Assoc<string, Value>, options: Assoc<string, Value>)
    requires Scalars(options)
    ensures OptionsAssoc(acc, options) == Merge(acc, options)
    decreases |options|
  {
    if options != [] {
      OptionsAssocScalars(Put(acc, options[0].0, options[0].1), options[1..]);
    }
  }

  lemma {:induction false} OptionsAssocAppend(acc: Assoc<string, Value>, a: Assoc<string, Value>, b: Assoc<string, Value>)
    ensures OptionsAssoc(acc, a + b) == OptionsAssoc(OptionsAssoc(acc, a), b)
    decreases |a|
  {
    if a == [] {
      assert a + b == b;
    } else {
      assert (a + b)[0] == a[0] && (a + b)[1..] == a[1..] + b;
      OptionsAssocAppend(SpliceOption(acc, a[0].0, a[0].1), a[1..], b);
    }
  }

  lemma OptionsAssocDict(acc: Assoc<string, Value>, name: string, entries: Assoc<string, Value>)
    ensures OptionsAssoc(acc, [(name, Dict(entries))]) == Merge(acc, entries)
  {
    assert [(name, Dict(entries))][1..] == [];
  }

  /** `Get` on a merge of maps with unique keys: the later map wins. */
  lemma MergeGetUnique(a: Assoc<string, Value>, b: Assoc<string, Value>, j: string)
    requires UniqueKeys(b)
    ensures Get(Merge(a, b), j) == if HasKey(b, j) then Get(b, j) else Get(a, j)
  {
    MergeGet(a, b, j);
    if HasKey(b, j) {
      LastValueUnique(b, j);
    }
  }

  /**
   * Splicing the options `processAssocArgs` bound and putting its flags gives
   * back, under every key, what WP-CLI passed: the inherited
   * `getWpCliAssociativeArguments` agrees key by key with the `WpCliInput`
   * override that returns the raw map.
   */
  lemma AssocRoundTrip(assoc: Assoc<string, Value>, ps: seq<ParamSpec>, accept: bool, name: Result<string>, j: string)
    requires Distinct(ParamNames(ps)) && ArbitraryOptionsKey !in ParamNames(ps)
    requires UniqueKeys(assoc) && Scalars(assoc)
    requires AssocBinding(assoc, ps, accept, name).Ok?
    ensures var bound := AssocBinding(assoc, ps, accept, name).value;
      Get(ArrayInput([], bound.0, bound.1).WpCliAssoc(), j) == Get(assoc, j)
  {
    var acc := Sorted([], [], assoc);
    var out := SortParams(acc, ps, name).value;
    var bound := AssocBinding(assoc, ps, accept, name).value;
    SortParamsShape(acc, ps, name);
    SortParamsGet(acc, ps, name, j);
    SortParamsGet(acc, ps, name, ArbitraryOptionsKey);
    KindNamesAreNames(ps, j);
    KindNamesAreNames(ps, ArbitraryOptionsKey);
    OptionsAssocScalars([], out.options);
    var spliced := OptionsAssoc([], bound.0);
    if out.leftover == [] {
      assert spliced == Merge([], out.options);
    } else {
      var arbitrary := [(ArbitraryOptionsKey, Dict(out.leftover))];
      assert bound.0 == out.options + arbitrary;
      OptionsAssocAppend([], out.options, arbitrary);
      OptionsAssocDict(Merge([], out.options), ArbitraryOptionsKey, out.leftover);
      MergeGetUnique(Merge([], out.options), out.leftover, j);
    }
    MergeGetUnique([], out.options, j);
    MergeGetUnique(spliced, out.flags, j);
  }

  /** The two `getWpCliAssociativeArguments` agree under every key on what `WpCliInput` builds. */
  lemma WpCliAssocAgree(args: seq<string>, assocArgs: Assoc<string, Value>, st: CommandState, name: Result<string>, j: string)
    requires WellFormed(st.arguments, st.params) && ArbitraryOptionsKey !in ParamNames(st.params)
    requires UniqueKeys(assocArgs) && Scalars(assocArgs)
    requires WpCliInputOf(args, assocArgs, st, name).Ok?
    ensures var input := WpCliInputOf(args, assocArgs, st, name).value;
      Get(ArrayInput(input.arguments, input.options, input.flags).WpCliAssoc(), j) == Get(input.WpCliAssoc(), j)
  {
    AssocRoundTrip(assocArgs, st.params, st.fields.acceptArbitraryOptions, name, j);
  }
}
