/** The values the container works with, with Go's reflection abstracted away.

    A Go `reflect.Type` becomes a `TypeId`: only its identity (and the way `%s`
    prints it, used by the error messages) matters. A provider or consumer
    function becomes a `Signature` (what reflection tells about its type) and,
    for a provider, a `call` that stands for `reflect.Value.Call`. */
module Types {

  datatype Option<+T> = None | Some(value: T)

  datatype Result<+T> = Ok(value: T) | Err(error: Error)

  /** A type as the container sees it: the key of both maps. */
  type TypeId = string

  /** A user-visible error. The first seven variants are the errors the
      container itself creates; `Raised` is an error returned by code the
      container calls (a provider or an instance's `Close`); `Multi` is the
      aggregate that `Close` returns. */
  datatype Error =
    | NotProviderFunction(sig: TypeId)                   // not a func, or 0 or >2 results
    | NotProviderFunctionWithError(sig: TypeId, second: TypeId)
    | DuplicatedProvider(produced: TypeId)
    | FailedToProvide(cause: Error)                      // New's wrapping of a provide error
    | NotConsumerFunction(sig: TypeId)
    | NotConsumerFunctionWith0Results(sig: TypeId)
    | NotProvided(ty: TypeId)
    | Raised(msg: string)
    | Multi(errs: seq<Error>)

  /** A value the container holds: what a provider returned. `closable` says
      whether its dynamic type implements `io.Closer`, and `closeErr` is what
      its `Close` returns. `ref` tells objects apart (pointer identity). */
  datatype Object = Object(ref: nat, closable: bool, closeErr: Option<Error>)

  /** What reflection tells about a function value's type. */
  datatype Signature = Signature(
    name: TypeId,          // the function's type, as `%s` prints it
    isFunc: bool,          // Kind() == reflect.Func
    ins: seq<TypeId>,      // In(0) .. In(NumIn()-1)
    outs: seq<TypeId>,     // Out(0) .. Out(NumOut()-1)
    secondIsError: bool)   // Out(1) is an interface type implementing `error`

  /** The results of calling a provider: `ret[0]` and, when the provider has
      a second result, the error it holds. */
  datatype Returned = Returned(value: Object, err: Option<Error>)

  /** A provider: its signature and the function that `Call` runs. */
  datatype Provider = Provider(sig: Signature, call: seq<Object> -> Returned)

  /** The type a provider produces: its first result. */
  function Produces(p: Provider): TypeId
    requires |p.sig.outs| > 0
  {
    p.sig.outs[0]
  }

  /** No element occurs twice. */
  predicate NoDup<T(==)>(s: seq<T>)
  {
    forall i, j :: 0 <= i < j < |s| ==> s[i] != s[j]
  }

  /** Joining two lists without a duplicate and without a common element
      gives a list without a duplicate. */
  lemma NoDupConcat<T>(a: seq<T>, b: seq<T>)
    requires NoDup(a) && NoDup(b)
    requires forall x :: x in a ==> x !in b
    ensures NoDup(a + b)
  {
    forall i, j | 0 <= i < j < |a + b| ensures (a + b)[i] != (a + b)[j] {
      if j >= |a| && i < |a| {
        assert (a + b)[i] in a && (a + b)[j] in b;
      }
    }
  }

  lemma ConcatAssoc<T>(a: seq<T>, b: seq<T>, c: seq<T>)
    ensures a + (b + c) == (a + b) + c
  {
  }
}
