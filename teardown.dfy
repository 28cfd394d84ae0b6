/** What `Close` must gather, and how errors print: the text of each of the
    container's errors and `multiError.Error`, which prints the gathered
    errors the way `%v` prints a slice, in brackets and separated by spaces. */
module Teardown {
  import opened Types

  /** The failure closing `o` adds: its `Close` error, when it is closable
      and closing it fails. */
  function FailureOf(o: Object): (f: multiset<Error>)
    ensures |f| <= 1
    ensures f == multiset{} <==> !(o.closable && o.closeErr.Some?)
  {
    if o.closable && o.closeErr.Some? then multiset{o.closeErr.value} else multiset{}
  }

  /** The errors closing every instance of `m` gives, in no order. */
  ghost function Failures(m: map<TypeId, Object>): multiset<Error>
    decreases |m|
  {
    if m == map[] then multiset{}
    else
      var t := Pick(m);
      assert |(m - {t}).Keys| == |m.Keys - {t}| < |m.Keys|;
      Failures(m - {t}) + FailureOf(m[t])
  }

  /** Some type of a non-empty map: the one `Failures` visits first. */
  ghost function Pick(m: map<TypeId, Object>): (t: TypeId)
    requires m != map[]
    ensures t in m
  {
    var t :| t in m; t
  }

  /** `Failures` does not depend on the order the instances are visited in:
      any instance can be taken out first. */
  lemma {:induction false} FailuresRemove(m: map<TypeId, Object>, t: TypeId)
    requires t in m
    ensures Failures(m) == Failures(m - {t}) + FailureOf(m[t])
    decreases |m|
  {
    var u := Pick(m);
    if u != t {
      var mu, mt := m - {u}, m - {t};
      var rest := mu - {t};
      assert |mu.Keys| == |m.Keys - {u}| < |m.Keys|;
      assert |mt.Keys| == |m.Keys - {t}| < |m.Keys|;
      assert rest == mt - {u};
      calc {
        Failures(m);
        Failures(mu) + FailureOf(m[u]);
        { FailuresRemove(mu, t); }
        Failures(rest) + FailureOf(m[t]) + FailureOf(m[u]);
        Failures(rest) + FailureOf(m[u]) + FailureOf(m[t]);
        { FailuresRemove(mt, u); }
        Failures(mt) + FailureOf(m[t]);
      }
    }
  }

  /** No failure is gathered exactly when no closable instance fails to
      close. */
  lemma {:induction false} NoFailuresIff(m: map<TypeId, Object>)
    ensures Failures(m) == multiset{} <==>
              forall t :: t in m ==> !(m[t].closable && m[t].closeErr.Some?)
    decreases |m|
  {
    if m != map[] {
      var t := Pick(m);
      var mt := m - {t};
      assert |mt.Keys| == |m.Keys - {t}| < |m.Keys|;
      NoFailuresIff(mt);
      assert Failures(m) == Failures(mt) + FailureOf(m[t]);
      assert forall t' :: t' in m ==> t' == t || t' in mt;
    }
  }

  /** An error is gathered only if some closable instance's `Close`
      returned it. */
  lemma {:induction false} FailuresFrom(m: map<TypeId, Object>, e: Error)
    requires e in Failures(m)
    ensures exists t :: t in m && m[t].closable && m[t].closeErr == Some(e)
    decreases |m|
  {
    var t := Pick(m);
    var mt := m - {t};
    assert |mt.Keys| == |m.Keys - {t}| < |m.Keys|;
    assert Failures(m) == Failures(mt) + FailureOf(m[t]);
    if e in Failures(mt) {
      FailuresFrom(mt, e);
      var t' :| t' in mt && mt[t'].closable && mt[t'].closeErr == Some(e);
      assert m[t'] == mt[t'];
    } else {
      assert e in FailureOf(m[t]);
    }
  }

  /** The words `%v` prints for a list, separated by single spaces. */
  function Join(words: seq<string>): string
  {
    if |words| == 0 then ""
    else if |words| == 1 then words[0]
    else words[0] + " " + Join(words[1..])
  }

  /** What `Error()` returns for each error: the aggregate prints its
      errors' texts in brackets, separated by single spaces, and every other
      error prints as the code's format string gives it. */
  function Message(e: Error): (m: string)
    ensures e.Multi? ==> m == "[" + Join(Messages(e.errs)) + "]"
    ensures e.NotProviderFunction? ==> m == "not a provider function: " + e.sig
    ensures e.NotProviderFunctionWithError? ==>
              m == "not a provider function with error: " + e.sig + ", " + e.second
    ensures e.DuplicatedProvider? ==> m == "duplicated provider: " + e.produced
    ensures e.FailedToProvide? ==> m == "failed to provide: " + Message(e.cause)
    ensures e.NotConsumerFunction? ==> m == "not a consumer function: " + e.sig
    ensures e.NotConsumerFunctionWith0Results? ==>
              m == "not a consumer function with 0 results: " + e.sig
    ensures e.NotProvided? ==> m == "not provided: " + e.ty
    ensures e.Raised? ==> m == e.msg
  {
    match e
    case NotProviderFunction(sig) => "not a provider function: " + sig
    case NotProviderFunctionWithError(sig, second) =>
      "not a provider function with error: " + sig + ", " + second
    case DuplicatedProvider(o) => "duplicated provider: " + o
    case FailedToProvide(cause) => "failed to provide: " + Message(cause)
    case NotConsumerFunction(sig) => "not a consumer function: " + sig
    case NotConsumerFunctionWith0Results(sig) => "not a consumer function with 0 results: " + sig
    case NotProvided(ty) => "not provided: " + ty
    case Raised(msg) => msg
    case Multi(errs) => "[" + Join(Messages(errs)) + "]"
  }

  function Messages(errs: seq<Error>): (ms: seq<string>)
    ensures |ms| == |errs|
    ensures forall i :: 0 <= i < |errs| ==> ms[i] == Message(errs[i])
  {
    if errs == [] then [] else [Message(errs[0])] + Messages(errs[1..])
  }

  /** Cut a text at every space. */
  function Split(s: string): (words: seq<string>)
    ensures |words| > 0
  {
    if s == [] then [""]
    else if s[0] == ' ' then [""] + Split(s[1..])
    else
      var rest := Split(s[1..]);
      [[s[0]] + rest[0]] + rest[1..]
  }

  /** A word without a space is not cut. */
  lemma {:induction false} SplitWord(w: string)
    requires ' ' !in w
    ensures Split(w) == [w]
  {
    if w != [] {
      SplitWord(w[1..]);
      assert [w[0]] + w[1..] == w;
    }
  }

  /** Text up to the first space becomes the first word. */
  lemma {:induction false} SplitAtSpace(w: string, s: string)
    requires ' ' !in w
    ensures Split(w + " " + s) == [w] + Split(s)
  {
    if w == [] {
      assert w + " " + s == " " + s;
      assert (" " + s)[1..] == s;
    } else {
      assert (w + " " + s)[1..] == w[1..] + " " + s;
      SplitAtSpace(w[1..], s);
      assert [w[0]] + w[1..] == w;
    }
  }

  /** Splitting the joined words gives the words back, when there is at
      least one and none holds a space: the printed aggregate determines
      the messages it was made of. */
  lemma {:induction false} SplitJoin(words: seq<string>)
    requires |words| > 0
    requires forall i :: 0 <= i < |words| ==> ' ' !in words[i]
    ensures Split(Join(words)) == words
  {
    if |words| == 1 {
      SplitWord(words[0]);
    } else {
      SplitJoin(words[1..]);
      SplitAtSpace(words[0], Join(words[1..]));
      assert words == [words[0]] + words[1..];
    }
  }

  /** The aggregate's text is its messages in brackets, and reading it back
      recovers them when no message holds a space. */
  lemma MultiMessage(errs: seq<Error>)
    requires |errs| > 0
    requires forall i :: 0 <= i < |errs| ==> ' ' !in Message(errs[i])
    ensures var s := Message(Multi(errs));
            && |s| >= 2 && s[0] == '[' && s[|s| - 1] == ']'
            && Split(s[1..|s| - 1]) == Messages(errs)
  {
    var s := Message(Multi(errs));
    assert s[1..|s| - 1] == Join(Messages(errs));
    SplitJoin(Messages(errs));
  }

  /** The aggregate of one error prints that error's text in brackets. */
  lemma {:induction false} OneFailureMessage(errs: seq<Error>, e: Error)
    requires multiset(errs) == multiset{e}
    ensures Message(Multi(errs)) == "[" + Message(e) + "]"
  {
    assert |errs| == 1;
    assert errs[0] in multiset(errs);
    assert errs == [e];
  }

  /** A list holding two given elements, once each, holds them in one order
      or the other. */
  lemma {:induction false} PairOrder(errs: seq<Error>, e1: Error, e2: Error)
    requires multiset(errs) == multiset{e1, e2}
    ensures errs == [e1, e2] || errs == [e2, e1]
  {
    assert |errs| == 2;
    assert errs == [errs[0], errs[1]];
    assert errs[0] in multiset(errs);
    if errs[0] == e1 {
      assert multiset(errs) == multiset{e1} + multiset{errs[1]};
    } else {
      assert errs[0] == e2;
      assert multiset(errs) == multiset{e2} + multiset{errs[1]};
    }
  }

  /** The aggregate of two errors prints them in order, space-separated. */
  lemma PairMessage(e1: Error, e2: Error)
    ensures Message(Multi([e1, e2])) == "[" + Message(e1) + " " + Message(e2) + "]"
  {
    var a, b := Message(e1), Message(e2);
    assert Messages([e1, e2]) == [a, b];
    BracketPair(a, b);
  }

  /** Two words joined and bracketed: one space between them. */
  lemma BracketPair(a: string, b: string)
    ensures "[" + Join([a, b]) + "]" == "[" + a + " " + b + "]"
  {
    assert [a, b][1..] == [b];
    assert Join([a, b]) == a + " " + b;
  }

  /** The aggregate of two errors prints their texts in one order or the
      other, whichever order they were gathered in. */
  lemma TwoFailuresMessage(errs: seq<Error>, e1: Error, e2: Error)
    requires multiset(errs) == multiset{e1, e2}
    ensures Message(Multi(errs)) == "[" + Message(e1) + " " + Message(e2) + "]" ||
            Message(Multi(errs)) == "[" + Message(e2) + " " + Message(e1) + "]"
  {
    PairOrder(errs, e1, e2);
    PairMessage(e1, e2);
    PairMessage(e2, e1);
  }

  /** Two closable instances of which one fails to close with `e`: the
      gathered failures are exactly `e`. */
  lemma OneOfTwoFails(m: map<TypeId, Object>, t1: TypeId, t2: TypeId, e: Error)
    requires m.Keys == {t1, t2} && t1 != t2
    requires m[t1].closable && m[t1].closeErr == Some(e)
    requires !(m[t2].closable && m[t2].closeErr.Some?)
    ensures Failures(m) == multiset{e}
  {
    FailuresRemove(m, t1);
    var rest := m - {t1};
    FailuresRemove(rest, t2);
    assert rest - {t2} == map[];
  }

  /** Two closable instances that both fail to close: both errors are
      gathered. */
  lemma BothOfTwoFail(m: map<TypeId, Object>, t1: TypeId, t2: TypeId, e1: Error, e2: Error)
    requires m.Keys == {t1, t2} && t1 != t2
    requires m[t1].closable && m[t1].closeErr == Some(e1)
    requires m[t2].closable && m[t2].closeErr == Some(e2)
    ensures Failures(m) == multiset{e1, e2}
  {
    FailuresRemove(m, t1);
    var rest := m - {t1};
    FailuresRemove(rest, t2);
    assert rest - {t2} == map[];
  }

  /** Closing a closable instance that fails with "test" next to one that is
      not closable reports "[test]". */
  lemma OneFailureText(m: map<TypeId, Object>, t1: TypeId, t2: TypeId, errs: seq<Error>)
    requires m.Keys == {t1, t2} && t1 != t2
    requires m[t1].closable && m[t1].closeErr == Some(Raised("test"))
    requires !m[t2].closable
    requires multiset(errs) == Failures(m)
    ensures Message(Multi(errs)) == "[test]"
  {
    OneOfTwoFails(m, t1, t2, Raised("test"));
    OneFailureMessage(errs, Raised("test"));
  }

  /** Closing two instances that fail with "1" and "2" reports "[1 2]" or
      "[2 1]", depending on the order the map is visited in. */
  lemma TwoFailuresText(m: map<TypeId, Object>, t1: TypeId, t2: TypeId, errs: seq<Error>)
    requires m.Keys == {t1, t2} && t1 != t2
    requires m[t1].closable && m[t1].closeErr == Some(Raised("1"))
    requires m[t2].closable && m[t2].closeErr == Some(Raised("2"))
    requires multiset(errs) == Failures(m)
    ensures Message(Multi(errs)) == "[1 2]" || Message(Multi(errs)) == "[2 1]"
  {
    BothOfTwoFail(m, t1, t2, Raised("1"), Raised("2"));
    PairOrder(errs, Raised("1"), Raised("2"));
    if errs == [Raised("1"), Raised("2")] {
      PairMessage(Raised("1"), Raised("2"));
      assert "[" + "1" + " " + "2" + "]" == "[1 2]";
    } else {
      PairMessage(Raised("2"), Raised("1"));
      assert "[" + "2" + " " + "1" + "]" == "[2 1]";
    }
  }
}
