/**
 * The parameter resolver handed to the invoker
 * (src/TransformingAssociativeArrayParameterResolver.php): each handler
 * parameter not resolved yet takes the provided value under the first name,
 * in chain order, that a transformer makes of the parameter's name.
 */
module Resolver {
  import opened Wrappers
  import opened PhpArrays
  import opened Support
  import opened Commands

  /** The chain the constructor falls back to: kebab, snake, camel and Pascal case, and no identity. */
  function DefaultTransformers(): seq<string -> string> {
    [KebabCase, SnakeCase, CamelCase, PascalCase]
  }

  /** Two chains apply the same transformations in the same order. */
  ghost predicate SameChain(a: seq<string -> string>, b: seq<string -> string>) {
    |a| == |b| && forall k, s :: 0 <= k < |a| ==> a[k](s) == b[k](s)
  }

  /** The position of the first transformer whose output is a provided key, or `|ts|`. */
  function FirstHitIndex(ts: seq<string -> string>, name: string, provided: Assoc<string, Value>): (k: nat)
    ensures k <= |ts|
    ensures forall i :: 0 <= i < k ==> !HasKey(provided, ts[i](name))
    ensures k < |ts| ==> HasKey(provided, ts[k](name))
    decreases |ts|
  {
    if ts == [] then 0
    else if HasKey(provided, ts[0](name)) then 0
    else 1 + FirstHitIndex(ts[1..], name, provided)
  }

  /** The value the inner loop finds for a parameter named `name`, if any transformer hits. */
  function FirstHit(ts: seq<string -> string>, name: string, provided: Assoc<string, Value>): (r: Option<Value>)
    ensures r.Some? <==> exists k :: 0 <= k < |ts| && HasKey(provided, ts[k](name))
  {
    var k := FirstHitIndex(ts, name, provided);
    if k < |ts| then Some(Get(provided, ts[k](name)).value) else None
  }

  /**
   * The outer loop from parameter `i` on: a parameter whose index `original`
   * already resolves is skipped (`array_diff_key`), any other one that a
   * transformer hits is put under its index.
   */
  function ResolveFrom(ts: seq<string -> string>, params: seq<HandlerParameter>, provided: Assoc<string, Value>,
                       original: Assoc<int, Value>, acc: Assoc<int, Value>, i: nat): Assoc<int, Value>
    decreases |params| - i
  {
    if i >= |params| then acc
    else
      var hit := FirstHit(ts, params[i].name, provided);
      var next := if HasKey(original, i) || hit.None? then acc else Put(acc, i, hit.value);
      ResolveFrom(ts, params, provided, original, next, i + 1)
  }

  lemma ResolveFromStep(ts: seq<string -> string>, params: seq<HandlerParameter>, provided: Assoc<string, Value>,
                        original: Assoc<int, Value>, acc: Assoc<int, Value>, i: nat)
    requires i < |params|
    ensures var hit := FirstHit(ts, params[i].name, provided);
      ResolveFrom(ts, params, provided, original, acc, i) ==
      ResolveFrom(ts, params, provided, original, if HasKey(original, i) || hit.None? then acc else Put(acc, i, hit.value), i + 1)
  {
  }

  /** `getParameters`. */
  function Resolve(ts: seq<string -> string>, params: seq<HandlerParameter>, provided: Assoc<string, Value>,
                   resolved: Assoc<int, Value>): Assoc<int, Value> {
    ResolveFrom(ts, params, provided, resolved, resolved, 0)
  }

  lemma {:induction false} ResolveFromGet(ts: seq<string -> string>, params: seq<HandlerParameter>, provided: Assoc<string, Value>,
                                          original: Assoc<int, Value>, acc: Assoc<int, Value>, i: nat, j: int)
    ensures Get(ResolveFrom(ts, params, provided, original, acc, i), j) ==
      if i <= j < |params| && !HasKey(original, j) && FirstHit(ts, params[j].name, provided).Some?
      then FirstHit(ts, params[j].name, provided) else Get(acc, j)
    decreases |params| - i
  {
    if i < |params| {
      var hit := FirstHit(ts, params[i].name, provided);
      var skip := HasKey(original, i) || hit.None?;
      var next := if skip then acc else Put(acc, i, hit.value);
      ResolveFromGet(ts, params, provided, original, next, i + 1, j);
      if !skip {
        PutGet(acc, i, hit.value, j);
      }
      var r := ResolveFrom(ts, params, provided, original, acc, i);
      assert r == ResolveFrom(ts, params, provided, original, next, i + 1);
      if j == i {
        assert Get(r, j) == if skip then Get(acc, j) else hit;
      } else {
        assert Get(next, j) == Get(acc, j);
      }
    }
  }

  /**
   * What `getParameters` returns under every index: an entry resolved
   * before is kept as it was; an unresolved parameter takes the value of the
   * first transformer in the chain that hits a provided key, and stays absent
   * when none does; no other index appears.
   */
  lemma ResolveGet(ts: seq<string -> string>, params: seq<HandlerParameter>, provided: Assoc<string, Value>,
                   resolved: Assoc<int, Value>, j: int)
    ensures Get(Resolve(ts, params, provided, resolved), j) ==
      if HasKey(resolved, j) then Get(resolved, j)
      else if 0 <= j < |params| then FirstHit(ts, params[j].name, provided)
      else None
  {
    ResolveFromGet(ts, params, provided, resolved, resolved, 0, j);
  }

  /** The value found is the one under the first transformer's output that is a provided key. */
  lemma FirstHitIsFirst(ts: seq<string -> string>, name: string, provided: Assoc<string, Value>, k: nat)
    requires k < |ts| && HasKey(provided, ts[k](name))
    requires forall i :: 0 <= i < k ==> !HasKey(provided, ts[i](name))
    ensures FirstHit(ts, name, provided) == Get(provided, ts[k](name))
  {
    assert FirstHitIndex(ts, name, provided) == k;
  }

  class ParameterResolver {
    var transformers: seq<string -> string>

    /** An empty chain selects the default one. */
    constructor (parameterNameTransformers: seq<string -> string>)
      ensures parameterNameTransformers != [] ==> SameChain(transformers, parameterNameTransformers)
      ensures parameterNameTransformers == [] ==> SameChain(transformers, DefaultTransformers())
    {
      transformers := if parameterNameTransformers != [] then parameterNameTransformers else DefaultTransformers();
    }

    method SetParameterNameTransformers(parameterNameTransformers: seq<string -> string>)
      modifies this
      ensures SameChain(transformers, parameterNameTransformers)
    {
      transformers := parameterNameTransformers;
    }

    /** The nested loops of `getParameters`. */
    method GetParameters(params: seq<HandlerParameter>, provided: Assoc<string, Value>, resolved: Assoc<int, Value>)
      returns (r: Assoc<int, Value>)
      ensures r == Resolve(transformers, params, provided, resolved)
    {
      ghost var ts := transformers;
      r := resolved;
      for index := 0 to |params|
        invariant ResolveFrom(ts, params, provided, resolved, r, index) == Resolve(ts, params, provided, resolved)
      {
        ResolveFromStep(ts, params, provided, resolved, r, index);
        if HasKey(resolved, index) {
          continue;
        }
        var hit := FindValue(params[index].name, provided);
        if hit.Some? {
          r := Put(r, index, hit.value);
        }
      }
    }

    /** The inner loop of `getParameters`, left at the first transformer that hits. */
    method FindValue(name: string, provided: Assoc<string, Value>) returns (hit: Option<Value>)
      ensures hit == FirstHit(transformers, name, provided)
    {
      var t := 0;
      while t < |transformers|
        invariant 0 <= t <= |transformers|
        invariant forall i :: 0 <= i < t ==> !HasKey(provided, transformers[i](name))
      {
        var key := transformers[t](name);
        if HasKey(provided, key) {
          FirstHitIsFirst(transformers, name, provided, t);
          return Get(provided, key);
        }
        t := t + 1;
      }
      return None;
    }
  }
}
