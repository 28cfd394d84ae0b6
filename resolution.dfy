/** The resolution engine as functions of the registry and the cache:
    `instance` (a cache hit, a missing provider, the left-to-right resolution
    of a provider's parameters, the call, and the unconditional caching of
    its result) and `Consume`'s use of the same parameter loop.

    The code has no cycle guard; a registry with a dependency cycle makes
    `instance` recurse without end. Here a `rank` on types that drops from
    every registered type to each of its provider's parameters witnesses
    that the registry has no cycle, and is what the recursion decreases. */
module Resolution {
  import opened Types

  /** What `instance(ty)` returns, the cache it leaves, and the types whose
      providers it invoked, in the order it invoked them. */
  datatype Resolved = Resolved(
    value: Option<Object>,        // None stands for the zero `reflect.Value{}`
    err: Option<Error>,
    cache: map<TypeId, Object>,
    built: seq<TypeId>)

  /** The outcome of resolving a list of parameter types in order. */
  datatype Arguments = Arguments(
    args: seq<Object>,
    err: Option<Error>,
    cache: map<TypeId, Object>,
    built: seq<TypeId>)

  /** The outcome of `Consume`: its error, the arguments the consumer was
      called with (None when it was not called), the cache and the trace. */
  datatype Consumed = Consumed(
    err: Option<Error>,
    called: Option<seq<Object>>,
    cache: map<TypeId, Object>,
    built: seq<TypeId>)

  /** `rank` drops along every dependency edge: the registry has no cycle. */
  predicate Acyclic(registry: map<TypeId, Provider>, rank: TypeId -> nat)
  {
    forall t, p :: t in registry && p in registry[t].sig.ins ==> rank(p) < rank(t)
  }

  /** Every entry of `cache` is still in `cache'`, with the same value. */
  predicate Grows(cache: map<TypeId, Object>, cache': map<TypeId, Object>)
  {
    forall t :: t in cache ==> t in cache' && cache'[t] == cache[t]
  }

  /** The cached instances of the types `ps`, in order. */
  function Lookups(cache: map<TypeId, Object>, ps: seq<TypeId>): (r: seq<Object>)
    requires forall p :: p in ps ==> p in cache
    ensures |r| == |ps|
    ensures forall i :: 0 <= i < |ps| ==> r[i] == cache[ps[i]]
  {
    if ps == [] then [] else Lookups(cache, ps[..|ps| - 1]) + [cache[ps[|ps| - 1]]]
  }

  /** Looking types up in a cache that only grew gives the same instances. */
  lemma LookupsGrow(cache: map<TypeId, Object>, cache': map<TypeId, Object>, ps: seq<TypeId>)
    requires forall p :: p in ps ==> p in cache
    requires Grows(cache, cache')
    ensures forall p :: p in ps ==> p in cache'
    ensures Lookups(cache', ps) == Lookups(cache, ps)
  {
  }

  /** `instance(ty)`. */
  function Resolve(registry: map<TypeId, Provider>, cache: map<TypeId, Object>,
                   ty: TypeId, rank: TypeId -> nat): (r: Resolved)
    requires Acyclic(registry, rank)
    ensures Grows(cache, r.cache)
    ensures forall t :: t in r.cache ==> t in cache || t in r.built
    ensures forall t :: t in r.built ==> t in r.cache && t !in cache && t in registry && rank(t) <= rank(ty)
    ensures NoDup(r.built)
    ensures r.err.None? ==> r.value.Some?
    ensures r.value.Some? ==> ty in r.cache && r.cache[ty] == r.value.value
    ensures ty in r.built ==>
              && (forall p :: p in registry[ty].sig.ins ==> p in r.cache)
              && var ret := registry[ty].call(Lookups(r.cache, registry[ty].sig.ins));
              && r.value == Some(ret.value)
              && r.err == (if |registry[ty].sig.outs| == 2 then ret.err else None)
    decreases rank(ty), 1
  {
    if ty in cache then
      Resolved(Some(cache[ty]), None, cache, [])
    else if ty !in registry then
      Resolved(None, Some(NotProvided(ty)), cache, [])
    else
      var p := registry[ty];
      var a := ResolveArgs(registry, cache, p.sig.ins, rank(ty), rank);
      if a.err.Some? then
        Resolved(None, a.err, a.cache, a.built)
      else
        var ret := p.call(a.args);
        var e := if |p.sig.outs| == 2 then ret.err else None;
        var cache' := a.cache[ty := ret.value];
        LookupsGrow(a.cache, cache', p.sig.ins);
        NoDupConcat(a.built, [ty]);
        Resolved(Some(ret.value), e, cache', a.built + [ty])
  }

  /** A type that is neither cached nor unregistered is resolved by
      resolving its provider's parameters and, if they all resolve, calling
      the provider and caching what it returned. */
  lemma ResolveBuilds(registry: map<TypeId, Provider>, cache: map<TypeId, Object>,
                      ty: TypeId, rank: TypeId -> nat, a: Arguments)
    requires Acyclic(registry, rank)
    requires ty !in cache && ty in registry
    requires a == ResolveArgs(registry, cache, registry[ty].sig.ins, rank(ty), rank)
    ensures a.err.Some? ==> Resolve(registry, cache, ty, rank) == Resolved(None, a.err, a.cache, a.built)
    ensures a.err.None? ==>
              var ret := registry[ty].call(a.args);
              Resolve(registry, cache, ty, rank) ==
                Resolved(Some(ret.value), if |registry[ty].sig.outs| == 2 then ret.err else None,
                         a.cache[ty := ret.value], a.built + [ty])
  {
  }

  /** The parameter loop of `instance` and `Consume`: resolve `ps` left to
      right and stop at the first failure. */
  function ResolveArgs(registry: map<TypeId, Provider>, cache: map<TypeId, Object>,
                       ps: seq<TypeId>, bound: nat, rank: TypeId -> nat): (r: Arguments)
    requires Acyclic(registry, rank)
    requires forall p :: p in ps ==> rank(p) < bound
    ensures Grows(cache, r.cache)
    ensures forall t :: t in r.cache ==> t in cache || t in r.built
    ensures forall t :: t in r.built ==> t in r.cache && t !in cache && t in registry && rank(t) < bound
    ensures NoDup(r.built)
    ensures r.err.None? ==> (forall p :: p in ps ==> p in r.cache) && r.args == Lookups(r.cache, ps)
    decreases bound, 0, |ps|
  {
    if ps == [] then
      Arguments([], None, cache, [])
    else
      var prev := ResolveArgs(registry, cache, ps[..|ps| - 1], bound, rank);
      if prev.err.Some? then
        prev
      else
        var r := Resolve(registry, prev.cache, ps[|ps| - 1], rank);
        NoDupConcat(prev.built, r.built);
        if r.err.Some? then
          Arguments([], r.err, r.cache, prev.built + r.built)
        else
          LookupsGrow(prev.cache, r.cache, ps[..|ps| - 1]);
          Arguments(prev.args + [r.value.value], None, r.cache, prev.built + r.built)
  }

  /** One more turn of the parameter loop: `prev` is the outcome so far
      and `r` resolves the next parameter. */
  lemma ResolveArgsStep(registry: map<TypeId, Provider>, cache: map<TypeId, Object>,
                        ps: seq<TypeId>, i: nat, bound: nat, rank: TypeId -> nat,
                        prev: Arguments, r: Resolved)
    requires Acyclic(registry, rank)
    requires forall p :: p in ps ==> rank(p) < bound
    requires i < |ps|
    requires prev == ResolveArgs(registry, cache, ps[..i], bound, rank) && prev.err.None?
    requires r == Resolve(registry, prev.cache, ps[i], rank)
    ensures r.err.Some? ==>
              ResolveArgs(registry, cache, ps[..i + 1], bound, rank) == Arguments([], r.err, r.cache, prev.built + r.built)
    ensures r.err.None? ==>
              ResolveArgs(registry, cache, ps[..i + 1], bound, rank) ==
                Arguments(prev.args + [r.value.value], None, r.cache, prev.built + r.built)
  {
    assert ps[..i + 1][..i] == ps[..i];
  }

  /** Once a parameter has failed, the parameters after it change nothing. */
  lemma {:induction false} ArgsErrPersists(registry: map<TypeId, Provider>, cache: map<TypeId, Object>,
                                           ps: seq<TypeId>, k: nat, bound: nat, rank: TypeId -> nat)
    requires Acyclic(registry, rank)
    requires forall p :: p in ps ==> rank(p) < bound
    requires k <= |ps|
    requires ResolveArgs(registry, cache, ps[..k], bound, rank).err.Some?
    ensures ResolveArgs(registry, cache, ps, bound, rank) == ResolveArgs(registry, cache, ps[..k], bound, rank)
    decreases |ps|
  {
    if k < |ps| {
      var init := ps[..|ps| - 1];
      assert init[..k] == ps[..k];
      ArgsErrPersists(registry, cache, init, k, bound, rank);
    } else {
      assert ps[..k] == ps;
    }
  }

  /** A bound above the rank of every type in `ps`. */
  function Above(ps: seq<TypeId>, rank: TypeId -> nat): (b: nat)
    ensures forall p :: p in ps ==> rank(p) < b
  {
    if ps == [] then 0
    else
      var b := Above(ps[..|ps| - 1], rank);
      assert forall p :: p in ps ==> p in ps[..|ps| - 1] || p == ps[|ps| - 1];
      if rank(ps[|ps| - 1]) < b then b else rank(ps[|ps| - 1]) + 1
  }

  /** `Consume`: refuse a consumer that is not a function or that has
      results, resolve its parameters in order, and call it only if every
      resolution succeeded. */
  function Consume(registry: map<TypeId, Provider>, cache: map<TypeId, Object>,
                   consumer: Signature, rank: TypeId -> nat): (r: Consumed)
    requires Acyclic(registry, rank)
    ensures r.called.Some? <==> r.err.None?
    ensures !consumer.isFunc ==> r.err == Some(NotConsumerFunction(consumer.name))
    ensures consumer.isFunc && |consumer.outs| != 0 ==> r.err == Some(NotConsumerFunctionWith0Results(consumer.name))
    ensures r.called.Some? ==>
              && (forall p :: p in consumer.ins ==> p in r.cache)
              && r.called.value == Lookups(r.cache, consumer.ins)
    ensures Grows(cache, r.cache)
    ensures forall t :: t in r.cache ==> t in cache || t in r.built
    ensures forall t :: t in r.built ==> t in r.cache && t !in cache && t in registry
    ensures NoDup(r.built)
  {
    if !consumer.isFunc then
      Consumed(Some(NotConsumerFunction(consumer.name)), None, cache, [])
    else if |consumer.outs| != 0 then
      Consumed(Some(NotConsumerFunctionWith0Results(consumer.name)), None, cache, [])
    else
      var a := ResolveArgs(registry, cache, consumer.ins, Above(consumer.ins, rank), rank);
      if a.err.Some? then
        Consumed(a.err, None, a.cache, a.built)
      else
        Consumed(None, Some(a.args), a.cache, a.built)
  }

  /** A cached type is returned as it is, with no error, no provider call
      and no change to the cache. */
  lemma ResolveCached(registry: map<TypeId, Provider>, cache: map<TypeId, Object>,
                      ty: TypeId, rank: TypeId -> nat)
    requires Acyclic(registry, rank)
    requires ty in cache
    ensures Resolve(registry, cache, ty, rank) == Resolved(Some(cache[ty]), None, cache, [])
  {
  }

  /** A type that is neither cached nor registered is "not provided", and
      nothing is cached. */
  lemma ResolveNotProvided(registry: map<TypeId, Provider>, cache: map<TypeId, Object>,
                           ty: TypeId, rank: TypeId -> nat)
    requires Acyclic(registry, rank)
    requires ty !in cache && ty !in registry
    ensures Resolve(registry, cache, ty, rank) == Resolved(None, Some(NotProvided(ty)), cache, [])
  {
  }

  /** When a parameter of `ty`'s provider fails, that error is returned, the
      provider is not invoked and `ty` is not cached; what the parameters
      resolved before the failure cached stays cached. */
  lemma ResolveParameterFails(registry: map<TypeId, Provider>, cache: map<TypeId, Object>,
                              ty: TypeId, rank: TypeId -> nat)
    requires Acyclic(registry, rank)
    requires ty !in cache && ty in registry
    requires ResolveArgs(registry, cache, registry[ty].sig.ins, rank(ty), rank).err.Some?
    ensures var a := ResolveArgs(registry, cache, registry[ty].sig.ins, rank(ty), rank);
            var r := Resolve(registry, cache, ty, rank);
            && r.err == a.err && r.value.None?
            && ty !in r.built && ty !in r.cache
            && r.cache == a.cache
  {
  }

  /** When every parameter resolves, the provider is invoked once, after
      all of them, and `ty` is cached whether or not it returned an error. */
  lemma ResolveInvokes(registry: map<TypeId, Provider>, cache: map<TypeId, Object>,
                       ty: TypeId, rank: TypeId -> nat)
    requires Acyclic(registry, rank)
    requires ty !in cache && ty in registry
    requires ResolveArgs(registry, cache, registry[ty].sig.ins, rank(ty), rank).err.None?
    ensures var a := ResolveArgs(registry, cache, registry[ty].sig.ins, rank(ty), rank);
            var r := Resolve(registry, cache, ty, rank);
            && r.built == a.built + [ty]
            && ty in r.cache && r.value == Some(r.cache[ty])
  {
  }

  /** Memoization: once a resolution has cached `ty`, resolving it again
      returns the very same instance with no error, even when the first
      resolution returned the provider's error, and invokes nothing. */
  lemma ResolveAgain(registry: map<TypeId, Provider>, cache: map<TypeId, Object>,
                     ty: TypeId, rank: TypeId -> nat)
    requires Acyclic(registry, rank)
    requires ty in Resolve(registry, cache, ty, rank).cache
    ensures var r := Resolve(registry, cache, ty, rank);
            var r' := Resolve(registry, r.cache, ty, rank);
            && r'.value.Some? && r'.err.None?
            && (r.value.Some? ==> r'.value == r.value)
            && r'.cache == r.cache && r'.built == []
  {
  }

  /** Resolving `ps` failed at position `k`: the parameters before it
      resolved, `ps[k]` failed, and the loop's outcome is that failure. */
  predicate FailsAt(registry: map<TypeId, Provider>, cache: map<TypeId, Object>,
                    ps: seq<TypeId>, bound: nat, rank: TypeId -> nat, k: nat)
    requires Acyclic(registry, rank)
    requires forall p :: p in ps ==> rank(p) < bound
    requires k < |ps|
  {
    var prev := ResolveArgs(registry, cache, ps[..k], bound, rank);
    var r := Resolve(registry, prev.cache, ps[k], rank);
    && prev.err.None? && r.err.Some?
    && ResolveArgs(registry, cache, ps, bound, rank) == Arguments([], r.err, r.cache, prev.built + r.built)
  }

  /** A failure stays where it is when a parameter is added after it. */
  lemma FailsAtLonger(registry: map<TypeId, Provider>, cache: map<TypeId, Object>,
                      ps: seq<TypeId>, bound: nat, rank: TypeId -> nat, k: nat)
    requires Acyclic(registry, rank)
    requires forall p :: p in ps ==> rank(p) < bound
    requires k + 1 < |ps|
    requires FailsAt(registry, cache, ps[..|ps| - 1], bound, rank, k)
    ensures FailsAt(registry, cache, ps, bound, rank, k)
  {
    var init := ps[..|ps| - 1];
    assert init[..k] == ps[..k] && init[k] == ps[k];
    var prev := ResolveArgs(registry, cache, init, bound, rank);
    assert prev.err.Some?;
    assert ResolveArgs(registry, cache, ps, bound, rank) == prev;
  }

  /** The parameter loop stops at the first failure: the parameters before
      it all resolved, the failing one's error is the loop's, and nothing
      after it was looked at. */
  lemma {:induction false} ArgsFirstFailure(registry: map<TypeId, Provider>, cache: map<TypeId, Object>,
                                            ps: seq<TypeId>, bound: nat, rank: TypeId -> nat)
    requires Acyclic(registry, rank)
    requires forall p :: p in ps ==> rank(p) < bound
    requires ResolveArgs(registry, cache, ps, bound, rank).err.Some?
    ensures exists k :: 0 <= k < |ps| && FailsAt(registry, cache, ps, bound, rank, k)
    decreases |ps|
  {
    var n := |ps| - 1;
    var init := ps[..n];
    var prev := ResolveArgs(registry, cache, init, bound, rank);
    if prev.err.Some? {
      ArgsFirstFailure(registry, cache, init, bound, rank);
      var k :| 0 <= k < |init| && FailsAt(registry, cache, init, bound, rank, k);
      FailsAtLonger(registry, cache, ps, bound, rank, k);
    } else {
      assert init == ps[..n];
      assert FailsAt(registry, cache, ps, bound, rank, n);
    }
  }

  /** Every cached registered type has its parameter types cached too. */
  predicate DepClosed(registry: map<TypeId, Provider>, cache: map<TypeId, Object>)
  {
    forall t, p :: t in cache && t in registry && p in registry[t].sig.ins ==> p in cache
  }

  /** Resolution keeps the cache closed under dependencies: from a closed
      cache (the empty one `New` leaves, say), every type resolution caches
      has everything it transitively needs cached as well. */
  lemma {:induction false} ResolveKeepsClosed(registry: map<TypeId, Provider>, cache: map<TypeId, Object>,
                                              ty: TypeId, rank: TypeId -> nat)
    requires Acyclic(registry, rank)
    requires DepClosed(registry, cache)
    ensures DepClosed(registry, Resolve(registry, cache, ty, rank).cache)
    decreases rank(ty), 1
  {
    if ty !in cache && ty in registry {
      var ins := registry[ty].sig.ins;
      ResolveArgsKeepsClosed(registry, cache, ins, rank(ty), rank);
    }
  }

  lemma {:induction false} ResolveArgsKeepsClosed(registry: map<TypeId, Provider>, cache: map<TypeId, Object>,
                                                  ps: seq<TypeId>, bound: nat, rank: TypeId -> nat)
    requires Acyclic(registry, rank)
    requires forall p :: p in ps ==> rank(p) < bound
    requires DepClosed(registry, cache)
    ensures DepClosed(registry, ResolveArgs(registry, cache, ps, bound, rank).cache)
    decreases bound, 0, |ps|
  {
    if ps != [] {
      var init := ps[..|ps| - 1];
      ResolveArgsKeepsClosed(registry, cache, init, bound, rank);
      var prev := ResolveArgs(registry, cache, init, bound, rank);
      if prev.err.None? {
        ResolveKeepsClosed(registry, prev.cache, ps[|ps| - 1], rank);
      }
    }
  }

  /** A successful `Consume` on a closed cache leaves every parameter type
      and everything it transitively needs cached. */
  lemma ConsumeCachesNeeds(registry: map<TypeId, Provider>, cache: map<TypeId, Object>,
                           consumer: Signature, rank: TypeId -> nat)
    requires Acyclic(registry, rank)
    requires DepClosed(registry, cache)
    ensures var r := Consume(registry, cache, consumer, rank);
            && DepClosed(registry, r.cache)
            && (r.err.None? ==> forall p :: p in consumer.ins ==> p in r.cache)
  {
    if consumer.isFunc && |consumer.outs| == 0 {
      ResolveArgsKeepsClosed(registry, cache, consumer.ins, Above(consumer.ins, rank), rank);
    }
  }

  /** `ty` can be had from `cache` and `registry`: it is cached, or it has a
      provider whose parameter types can all be had. */
  ghost predicate Available(registry: map<TypeId, Provider>, cache: map<TypeId, Object>,
                            ty: TypeId, rank: TypeId -> nat)
    requires Acyclic(registry, rank)
    decreases rank(ty)
  {
    || ty in cache
    || (ty in registry && forall p :: p in registry[ty].sig.ins ==> Available(registry, cache, p, rank))
  }

  /** No provider that declares an error result ever returns one. */
  ghost predicate NeverFails(registry: map<TypeId, Provider>)
  {
    forall t, args :: t in registry && |registry[t].sig.outs| == 2 ==> registry[t].call(args).err.None?
  }

  /** What can be had stays available as the cache grows. */
  lemma {:induction false} AvailableGrows(registry: map<TypeId, Provider>, cache: map<TypeId, Object>,
                                          cache': map<TypeId, Object>, ty: TypeId, rank: TypeId -> nat)
    requires Acyclic(registry, rank)
    requires Grows(cache, cache')
    requires Available(registry, cache, ty, rank)
    ensures Available(registry, cache', ty, rank)
    decreases rank(ty)
  {
    if ty !in cache {
      forall p | p in registry[ty].sig.ins ensures Available(registry, cache', p, rank) {
        AvailableGrows(registry, cache, cache', p, rank);
      }
    }
  }

  /** Resolution succeeds whenever the type can be had and no provider
      reports an error: `NotProvided` and a provider's error are the only
      ways it fails. */
  lemma {:induction false} ResolveSucceeds(registry: map<TypeId, Provider>, cache: map<TypeId, Object>,
                                           ty: TypeId, rank: TypeId -> nat)
    requires Acyclic(registry, rank)
    requires NeverFails(registry)
    requires Available(registry, cache, ty, rank)
    ensures Resolve(registry, cache, ty, rank).err.None?
    decreases rank(ty), 1
  {
    if ty !in cache {
      var p := registry[ty];
      ResolveArgsSucceed(registry, cache, p.sig.ins, rank(ty), rank);
      var a := ResolveArgs(registry, cache, p.sig.ins, rank(ty), rank);
      assert registry[ty].call(a.args).err.None? || |p.sig.outs| != 2;
    }
  }

  lemma {:induction false} ResolveArgsSucceed(registry: map<TypeId, Provider>, cache: map<TypeId, Object>,
                                              ps: seq<TypeId>, bound: nat, rank: TypeId -> nat)
    requires Acyclic(registry, rank)
    requires NeverFails(registry)
    requires forall p :: p in ps ==> rank(p) < bound && Available(registry, cache, p, rank)
    ensures ResolveArgs(registry, cache, ps, bound, rank).err.None?
    decreases bound, 0, |ps|
  {
    if ps != [] {
      var init := ps[..|ps| - 1];
      var last := ps[|ps| - 1];
      ResolveArgsSucceed(registry, cache, init, bound, rank);
      var prev := ResolveArgs(registry, cache, init, bound, rank);
      AvailableGrows(registry, cache, prev.cache, last, rank);
      ResolveSucceeds(registry, prev.cache, last, rank);
    }
  }

  /** A well-formed consumer is called whenever each of its parameter types
      can be had and no provider reports an error. */
  lemma ConsumeSucceeds(registry: map<TypeId, Provider>, cache: map<TypeId, Object>,
                        consumer: Signature, rank: TypeId -> nat)
    requires Acyclic(registry, rank)
    requires NeverFails(registry)
    requires consumer.isFunc && |consumer.outs| == 0
    requires forall p :: p in consumer.ins ==> Available(registry, cache, p, rank)
    ensures Consume(registry, cache, consumer, rank).err.None?
    ensures Consume(registry, cache, consumer, rank).called.Some?
  {
    ResolveArgsSucceed(registry, cache, consumer.ins, Above(consumer.ins, rank), rank);
  }

  /** When a parameter of a well-formed consumer fails, `Consume` returns
      that parameter's resolution error: the parameters before it resolved
      and nothing after it was looked at. */
  lemma ConsumeFailsAtFirst(registry: map<TypeId, Provider>, cache: map<TypeId, Object>,
                            consumer: Signature, rank: TypeId -> nat)
    requires Acyclic(registry, rank)
    requires consumer.isFunc && |consumer.outs| == 0
    requires Consume(registry, cache, consumer, rank).err.Some?
    ensures var bound := Above(consumer.ins, rank);
            exists k :: 0 <= k < |consumer.ins| && FailsAt(registry, cache, consumer.ins, bound, rank, k) &&
              Consume(registry, cache, consumer, rank).err ==
                Resolve(registry, ResolveArgs(registry, cache, consumer.ins[..k], bound, rank).cache,
                        consumer.ins[k], rank).err
  {
    ArgsFirstFailure(registry, cache, consumer.ins, Above(consumer.ins, rank), rank);
  }
}
