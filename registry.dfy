/** Registration of providers: the checks `provide` makes on a provider's
    signature, the one-provider-per-type rule, and `New`'s loop over its
    arguments, which stops at the first provider that is refused. */
module Registry {
  import opened Types

  /** A provider `provide` accepts the shape of: a function with one result,
      or with two results the second of which is an error interface. */
  predicate WellShaped(sig: Signature)
  {
    && sig.isFunc
    && 1 <= |sig.outs| <= 2
    && (|sig.outs| == 2 ==> sig.secondIsError)
  }

  /** The shape checks of `provide`, in the order the code makes them. */
  function ShapeError(sig: Signature): (r: Option<Error>)
    ensures r.None? <==> WellShaped(sig)
    ensures r.Some? && sig.isFunc && 1 <= |sig.outs| <= 2 ==>
              r.value == NotProviderFunctionWithError(sig.name, sig.outs[1])
    ensures r.Some? && !(sig.isFunc && 1 <= |sig.outs| <= 2) ==>
              r.value == NotProviderFunction(sig.name)
  {
    if !sig.isFunc then Some(NotProviderFunction(sig.name))
    else if |sig.outs| == 0 || |sig.outs| > 2 then Some(NotProviderFunction(sig.name))
    else if |sig.outs| == 2 && !sig.secondIsError then
      Some(NotProviderFunctionWithError(sig.name, sig.outs[1]))
    else None
  }

  /** The registry invariant: every entry is well shaped and is keyed by the
      type it produces (so there is one provider per produced type). */
  ghost predicate Registered(registry: map<TypeId, Provider>)
  {
    forall t :: t in registry ==> WellShaped(registry[t].sig) && Produces(registry[t]) == t
  }

  /** `provide`: check the shape, refuse a second provider for a type, and
      otherwise add exactly one entry. */
  function Provide(registry: map<TypeId, Provider>, p: Provider): (r: Result<map<TypeId, Provider>>)
    ensures r.Ok? <==> WellShaped(p.sig) && Produces(p) !in registry
    ensures r.Err? && !WellShaped(p.sig) ==> r.error == ShapeError(p.sig).value
    ensures r.Err? && WellShaped(p.sig) ==> r.error == DuplicatedProvider(Produces(p))
    ensures r.Ok? ==> r.value.Keys == registry.Keys + {Produces(p)} && r.value[Produces(p)] == p
    ensures r.Ok? ==> forall t :: t in registry ==> r.value[t] == registry[t]
    ensures r.Ok? && Registered(registry) ==> Registered(r.value)
  {
    match ShapeError(p.sig)
    case Some(e) => Err(e)
    case None =>
      var o := Produces(p);
      if o in registry then Err(DuplicatedProvider(o)) else Ok(registry[o := p])
  }

  /** `New`: register the providers left to right, wrapping the first
      refusal and giving up there. */
  function Build(ps: seq<Provider>): (r: Result<map<TypeId, Provider>>)
    ensures r.Ok? ==> Registered(r.value)
    ensures r.Err? ==> r.error.FailedToProvide?
  {
    if ps == [] then Ok(map[])
    else
      match Build(ps[..|ps| - 1])
      case Err(e) => Err(e)
      case Ok(registry) =>
        match Provide(registry, ps[|ps| - 1])
        case Err(e) => Err(FailedToProvide(e))
        case Ok(registry') => Ok(registry')
  }

  /** Every provider has an acceptable shape and no two produce the same type. */
  predicate Acceptable(ps: seq<Provider>)
  {
    && (forall i :: 0 <= i < |ps| ==> WellShaped(ps[i].sig))
    && (forall i, j :: 0 <= i < j < |ps| ==> Produces(ps[i]) != Produces(ps[j]))
  }

  /** `New` succeeds exactly when every provider has an acceptable shape and
      no two produce the same type. */
  lemma BuildSucceedsIff(ps: seq<Provider>)
    ensures Build(ps).Ok? <==> Acceptable(ps)
  {
    if Build(ps).Ok? {
      BuildOkIsAcceptable(ps);
    } else {
      BuildErrIsUnacceptable(ps);
    }
  }

  lemma {:induction false} BuildOkIsAcceptable(ps: seq<Provider>)
    requires Build(ps).Ok?
    ensures Acceptable(ps)
  {
    if ps != [] {
      var n := |ps| - 1;
      var init := ps[..n];
      var p := ps[n];
      BuildOkIsAcceptable(init);
      BuildEntries(init);
      var registry := Build(init).value;
      assert Provide(registry, p).Ok?;
      assert WellShaped(p.sig) && Produces(p) !in registry;
      assert forall i :: 0 <= i < n ==> init[i] == ps[i];
      forall i, j | 0 <= i < j < |ps| ensures Produces(ps[i]) != Produces(ps[j]) {
        if j == n {
          assert Produces(init[i]) in registry;
        } else {
          assert init[i] == ps[i] && init[j] == ps[j];
        }
      }
    }
  }

  /** Dropping providers from the end keeps a list acceptable. */
  lemma AcceptablePrefix(ps: seq<Provider>, k: nat)
    requires k <= |ps|
    ensures Acceptable(ps) ==> Acceptable(ps[..k])
  {
    assert forall i :: 0 <= i < k ==> ps[..k][i] == ps[i];
  }

  lemma {:induction false} BuildErrIsUnacceptable(ps: seq<Provider>)
    requires Build(ps).Err?
    ensures !Acceptable(ps)
  {
    var n := |ps| - 1;
    var init := ps[..n];
    var p := ps[n];
    assert forall i :: 0 <= i < n ==> init[i] == ps[i];
    if Build(init).Err? {
      BuildErrIsUnacceptable(init);
      AcceptablePrefix(ps, n);
    } else if WellShaped(p.sig) {
      BuildKeys(init);
      var k :| 0 <= k < n && WellShaped(init[k].sig) && Produces(init[k]) == Produces(p);
      assert Produces(ps[k]) == Produces(ps[n]);
    }
  }

  /** After a successful `New` the registry holds one entry per provider, each
      keyed by the type it produces, and nothing else. */
  lemma {:induction false} BuildEntries(ps: seq<Provider>)
    requires Build(ps).Ok?
    ensures forall i :: 0 <= i < |ps| ==>
              WellShaped(ps[i].sig) && Produces(ps[i]) in Build(ps).value && Build(ps).value[Produces(ps[i])] == ps[i]
  {
    if ps != [] {
      var n := |ps| - 1;
      var init := ps[..n];
      BuildEntries(init);
      var registry := Build(init).value;
      var p := ps[n];
      var registry' := Build(ps).value;
      assert registry' == registry[Produces(p) := p];
      assert forall i :: 0 <= i < n ==> init[i] == ps[i];
    }
  }

  lemma {:induction false} BuildKeys(ps: seq<Provider>)
    requires Build(ps).Ok?
    ensures forall t :: t in Build(ps).value ==>
              exists i :: 0 <= i < |ps| && WellShaped(ps[i].sig) && Produces(ps[i]) == t
  {
    if ps != [] {
      var n := |ps| - 1;
      var init := ps[..n];
      BuildKeys(init);
      var registry := Build(init).value;
      var p := ps[n];
      var registry' := Build(ps).value;
      assert registry'.Keys == registry.Keys + {Produces(p)};
      forall t | t in registry' ensures exists i :: 0 <= i < |ps| && WellShaped(ps[i].sig) && Produces(ps[i]) == t {
        if t == Produces(p) {
          assert WellShaped(ps[n].sig);
        } else {
          var i :| 0 <= i < n && WellShaped(init[i].sig) && Produces(init[i]) == t;
          assert ps[i] == init[i];
        }
      }
    }
  }

  /** The registry `New` builds has as many entries as it was given providers. */
  lemma {:induction false} BuildSize(ps: seq<Provider>)
    requires Build(ps).Ok?
    ensures |Build(ps).value| == |ps|
  {
    if ps != [] {
      var n := |ps| - 1;
      BuildSize(ps[..n]);
      var registry := Build(ps[..n]).value;
      assert Build(ps).value.Keys == registry.Keys + {Produces(ps[n])};
      assert Produces(ps[n]) !in registry.Keys;
    }
  }

  /** `New` refused `ps[k]` after registering the providers before it, and
      its error is that refusal, wrapped. */
  predicate RefusedAt(ps: seq<Provider>, k: nat)
    requires k < |ps|
  {
    && Build(ps[..k]).Ok?
    && Provide(Build(ps[..k]).value, ps[k]).Err?
    && Build(ps) == Err(FailedToProvide(Provide(Build(ps[..k]).value, ps[k]).error))
  }

  /** A refusal stays the one `New` reports when providers follow it. */
  lemma RefusedAtLonger(ps: seq<Provider>, k: nat)
    requires k + 1 < |ps|
    requires RefusedAt(ps[..|ps| - 1], k)
    ensures RefusedAt(ps, k)
  {
    var init := ps[..|ps| - 1];
    assert init[..k] == ps[..k] && init[k] == ps[k];
    assert Build(init).Err?;
    assert Build(ps) == Build(init);
  }

  /** When `New` fails, it fails on the first refused provider: the providers
      before it register cleanly and the error is that provider's, wrapped. */
  lemma {:induction false} BuildFailsAtFirstRefusal(ps: seq<Provider>)
    requires Build(ps).Err?
    ensures exists k :: 0 <= k < |ps| && RefusedAt(ps, k)
  {
    var n := |ps| - 1;
    var init := ps[..n];
    if Build(init).Err? {
      BuildFailsAtFirstRefusal(init);
      var k :| 0 <= k < |init| && RefusedAt(init, k);
      RefusedAtLonger(ps, k);
    } else {
      assert RefusedAt(ps, n);
    }
  }

  /** Once `New` has refused a provider, the providers after it change
      nothing: the error stays the first one. */
  lemma {:induction false} BuildErrPersists(ps: seq<Provider>, k: nat)
    requires k <= |ps|
    requires Build(ps[..k]).Err?
    ensures Build(ps) == Build(ps[..k])
    decreases |ps|
  {
    if k < |ps| {
      var init := ps[..|ps| - 1];
      assert init[..k] == ps[..k];
      BuildErrPersists(init, k);
    } else {
      assert ps[..k] == ps;
    }
  }
}
