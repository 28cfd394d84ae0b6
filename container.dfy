/** The container itself: a registry of providers keyed by the type they
    produce and a cache of the instances built so far, both updated in
    place, with `New`, `provide`, `instance`, `Consume` and `Close`. Each
    method is proved to do what the functions of `Registry`, `Resolution`
    and `Teardown` say. */
module Di {
  import opened Types
  import Registry
  import Resolution
  import Teardown

  class Container {
    var providers: map<TypeId, Provider>
    var instances: map<TypeId, Object>
    /** The types whose providers have been invoked, in the order they were
        invoked: the trace of the providers' side effects. */
    ghost var invoked: seq<TypeId>

    /** One well-shaped provider per produced type, and every provider
        invoked at most once, its result cached. */
    ghost predicate Valid()
      reads this
    {
      && Registry.Registered(providers)
      && NoDup(invoked)
      && (forall t :: t in invoked ==> t in instances)
    }

    /** A container with the given maps, as a composite literal builds it. */
    constructor (providers: map<TypeId, Provider>, instances: map<TypeId, Object>)
      requires Registry.Registered(providers)
      ensures Valid()
      ensures this.providers == providers && this.instances == instances && invoked == []
    {
      this.providers := providers;
      this.instances := instances;
      invoked := [];
    }

    /** `New`: start empty and register the providers in order, giving up
        at the first one refused. */
    static method New(ps: seq<Provider>) returns (c: Container?, err: Option<Error>)
      ensures Registry.Build(ps).Ok? ==>
                && err.None? && c != null && fresh(c) && c.Valid()
                && c.providers == Registry.Build(ps).value
                && c.instances == map[] && c.invoked == []
      ensures Registry.Build(ps).Err? ==> c == null && err == Some(Registry.Build(ps).error)
    {
      var container := new Container(map[], map[]);
      var i := 0;
      while i < |ps|
        invariant 0 <= i <= |ps|
        invariant fresh(container) && container.Valid()
        invariant container.instances == map[] && container.invoked == []
        invariant Registry.Build(ps[..i]) == Ok(container.providers)
      {
        var e := container.Provide(ps[i]);
        assert ps[..i + 1][..i] == ps[..i];
        if e.Some? {
          Registry.BuildErrPersists(ps, i + 1);
          return null, Some(FailedToProvide(e.value));
        }
        i := i + 1;
      }
      assert ps[..i] == ps;
      return container, None;
    }

    /** `provide`: refuse a provider of the wrong shape or for a type that
        already has one, leaving the registry as it was; otherwise add it. */
    method Provide(p: Provider) returns (err: Option<Error>)
      requires Valid()
      modifies this`providers
      ensures Valid()
      ensures Registry.Provide(old(providers), p).Ok? ==>
                err.None? && providers == Registry.Provide(old(providers), p).value
      ensures Registry.Provide(old(providers), p).Err? ==>
                err == Some(Registry.Provide(old(providers), p).error) && providers == old(providers)
    {
      if !p.sig.isFunc {
        return Some(NotProviderFunction(p.sig.name));
      }
      var n := |p.sig.outs|;
      if n == 0 || n > 2 {
        return Some(NotProviderFunction(p.sig.name));
      }
      if n == 2 && !p.sig.secondIsError {
        return Some(NotProviderFunctionWithError(p.sig.name, p.sig.outs[1]));
      }
      var o := p.sig.outs[0];
      if o in providers {
        return Some(DuplicatedProvider(o));
      }
      providers := providers[o := p];
      return None;
    }

    /** `instance`: the cached instance of `ty`, or else the result of
        invoking its provider on its parameters' instances, cached even
        when the provider returns an error. */
    method Instance(ty: TypeId, ghost rank: TypeId -> nat) returns (value: Option<Object>, err: Option<Error>)
      requires Valid() && Resolution.Acyclic(providers, rank)
      modifies this`instances, this`invoked
      ensures Valid()
      ensures var r := Resolution.Resolve(providers, old(instances), ty, rank);
              && value == r.value && err == r.err
              && instances == r.cache && invoked == old(invoked) + r.built
      decreases rank(ty), 1
    {
      if ty in instances {
        return Some(instances[ty]), None;
      }
      if ty !in providers {
        return None, Some(NotProvided(ty));
      }
      var p := providers[ty];
      ghost var a := Resolution.ResolveArgs(providers, instances, p.sig.ins, rank(ty), rank);
      Resolution.ResolveBuilds(providers, instances, ty, rank, a);
      var args;
      args, err := Arguments(p.sig.ins, rank(ty), rank);
      if err.Some? {
        return None, err;
      }
      var ret := p.call(args);
      var e: Option<Error> := None;
      if |p.sig.outs| == 2 {
        e := ret.err;
      }
      ghost var before := invoked;
      instances := instances[ty := ret.value];
      invoked := invoked + [ty];
      assert NoDup(invoked) by { NoDupConcat(before, [ty]); }
      ConcatAssoc(old(invoked), a.built, [ty]);
      return Some(ret.value), e;
    }

    /** The loop of `instance` and `Consume` that fills the argument list:
        resolve each parameter type in order, stopping at the first error. */
    method Arguments(ps: seq<TypeId>, ghost bound: nat, ghost rank: TypeId -> nat)
      returns (args: seq<Object>, err: Option<Error>)
      requires Valid() && Resolution.Acyclic(providers, rank)
      requires forall p :: p in ps ==> rank(p) < bound
      modifies this`instances, this`invoked
      ensures Valid()
      ensures var r := Resolution.ResolveArgs(providers, old(instances), ps, bound, rank);
              && args == r.args && err == r.err
              && instances == r.cache && invoked == old(invoked) + r.built
      decreases bound, 0
    {
      args := [];
      var i := 0;
      ghost var cur := Resolution.ResolveArgs(providers, old(instances), ps[..0], bound, rank);
      while i < |ps|
        invariant 0 <= i <= |ps|
        invariant Valid()
        invariant cur == Resolution.ResolveArgs(providers, old(instances), ps[..i], bound, rank)
        invariant cur.err.None? && args == cur.args
        invariant instances == cur.cache && invoked == old(invoked) + cur.built
      {
        ghost var prev := cur;
        ghost var r := Resolution.Resolve(providers, prev.cache, ps[i], rank);
        Resolution.ResolveArgsStep(providers, old(instances), ps, i, bound, rank, prev, r);
        var a, e := Instance(ps[i], rank);
        ConcatAssoc(old(invoked), prev.built, r.built);
        cur := Resolution.ResolveArgs(providers, old(instances), ps[..i + 1], bound, rank);
        if e.Some? {
          Resolution.ArgsErrPersists(providers, old(instances), ps, i + 1, bound, rank);
          return [], e;
        }
        args := args + [a.value];
        i := i + 1;
      }
      assert ps[..i] == ps;
      err := None;
    }

    /** `Consume`: check the consumer's shape, resolve its parameters in
        order, and call it with them only if all resolved. `called` is the
        argument list of that call. */
    method Consume(consumer: Signature, ghost rank: TypeId -> nat)
      returns (err: Option<Error>, called: Option<seq<Object>>)
      requires Valid() && Resolution.Acyclic(providers, rank)
      modifies this`instances, this`invoked
      ensures Valid()
      ensures var r := Resolution.Consume(providers, old(instances), consumer, rank);
              && err == r.err && called == r.called
              && instances == r.cache && invoked == old(invoked) + r.built
    {
      if !consumer.isFunc {
        return Some(NotConsumerFunction(consumer.name)), None;
      }
      if |consumer.outs| != 0 {
        return Some(NotConsumerFunctionWith0Results(consumer.name)), None;
      }
      var args;
      args, err := Arguments(consumer.ins, Resolution.Above(consumer.ins, rank), rank);
      if err.Some? {
        return err, None;
      }
      called := Some(args);
    }

    /** `Close`: visit every cached instance, in whatever order the map
        gives, call `Close` on each closable one whatever the earlier calls
        returned, and gather the failures. `closed` lists the types whose
        instances were closed. */
    method Close() returns (err: Option<Error>, closed: seq<TypeId>)
      ensures err.None? <==> Teardown.Failures(instances) == multiset{}
      ensures err.Some? ==> err.value.Multi? && multiset(err.value.errs) == Teardown.Failures(instances)
      ensures forall t :: t in closed <==> t in instances && instances[t].closable
      ensures NoDup(closed)
    {
      var errs: seq<Error> := [];
      closed := [];
      var todo := instances;
      while todo != map[]
        invariant forall t :: t in todo ==> t in instances && todo[t] == instances[t]
        invariant multiset(errs) + Teardown.Failures(todo) == Teardown.Failures(instances)
        invariant forall t :: t in closed <==> t in instances && t !in todo && instances[t].closable
        invariant NoDup(closed)
        decreases todo.Keys
      {
        var t :| t in todo;
        var o := todo[t];
        Teardown.FailuresRemove(todo, t);
        if o.closable {
          NoDupConcat(closed, [t]);
          closed := closed + [t];
          if o.closeErr.Some? {
            errs := errs + [o.closeErr.value];
          }
        }
        todo := todo - {t};
      }
      assert Teardown.Failures(todo) == multiset{};
      if |errs| != 0 {
        return Some(Multi(errs)), closed;
      }
      return None, closed;
    }
  }
}
