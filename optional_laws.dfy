/** Properties of the `Optional<T>` container that relate several operations,
    and of fluent chains `o.map(f1).map(f2)...map(fn)`. */
module OptionalLaws {
  import opened Optionals

  /** `get()` undoes `from` and `from` undoes `get()`: the container never alters its value. */
  lemma FromGetRoundTrip<T>(x: Stored<T>, o: Optional<T>)
    ensures Get(From(x)) == x
    ensures From(Get(o)) == o
  {
  }

  /** A value is present exactly when it is neither `null` nor `undefined`,
      and `isNotPresent()` is always the negation of `isPresent()`. */
  lemma PresenceIsComplementary<T>(x: Stored<T>)
    ensures IsPresent(From(x)) <==> x != Null && x != Undefined
    ensures IsNotPresent(From(x)) <==> !IsPresent(From(x))
  {
  }

  /** `ifPresentOrElse` runs `notPresentFunc` exactly when `ifPresent` would run nothing,
      and otherwise makes the very call `ifPresent` makes. */
  lemma IfPresentOrElseExtendsIfPresent<T>(o: Optional<T>)
    ensures IfPresentOrElse(o) == if IsPresent(o) then IfPresent(o) else [Invoked]
    ensures IsNotPresent(o) <==> IfPresentOrElse(o) == [Invoked]
  {
  }

  /** `orElseGet(s)` returns what `orElse(s())` returns, and calls `s` only when
      the value is absent. */
  lemma OrElseGetAgreesWithOrElse<T>(o: Optional<T>, supplier: () -> T)
    ensures OrElseGet(o, supplier).result == OrElse(o, supplier())
    ensures OrElseGet(o, supplier).calls == (if IsPresent(o) then [] else [Invoked])
  {
  }

  /** The fallback of the empty container is always taken; that of a present value never is. */
  lemma OrElseOfFromAndEmpty<T>(v: T, other: T)
    ensures OrElse(From(Val(v)), other) == v
    ensures OrElse(Empty(), other) == other
    ensures OrElse(From(Undefined), other) == other
  {
  }

  /** Mapping an absent value yields `null`, even when the value was `undefined`:
      `map` with the identity mapper is the identity except on `undefined`. */
  lemma MapIdentityNormalizesUndefined<T>(o: Optional<T>)
    ensures Map(o, Val((x: T) => Val(x))).Success?
    ensures Map(o, Val((x: T) => Val(x))).value.result ==
            (if Get(o) == Undefined then Empty() else o)
  {
  }

  /** `m?.g` with the short-circuit of `map`: an absent `m` gives `null`. */
  function AndThen<T, R>(m: Stored<T>, g: T -> Stored<R>): (r: Stored<R>) {
    match m
    case Val(y) => g(y)
    case _ => Null
  }

  /** Two successive `map` calls give the container one `map` of the combined
      mapper gives; only the calls the caller sees differ. */
  lemma MapFusion<T, U, R>(o: Optional<T>, f: T -> Stored<U>, g: U -> Stored<R>)
    ensures Map(o, Val(f)).Success?
    ensures Map(Map(o, Val(f)).value.result, Val(g)).Success?
    ensures Map(Map(o, Val(f)).value.result, Val(g)).value.result ==
            Map(o, Val((x: T) => AndThen(f(x), g))).value.result
  {
  }

  /** A `null` or `undefined` mapper makes `map` fail on every container. */
  lemma NullMapperAlwaysFails<T, R>(o: Optional<T>, mapper: Stored<T -> Stored<R>>)
    requires mapper == Null || mapper == Undefined
    ensures Map(o, mapper) == Failure(AssertionFailed(MapperIsNullMessage))
    ensures Map(Empty<T>(), mapper) == Map(From(Undefined), mapper) == Map(o, mapper)
  {
  }

  /** The fluent chain `o.map(mappers[0]).map(mappers[1])...`: the final container,
      or the failure of the first `map` whose mapper is `null` or `undefined`,
      together with every mapper call made along the way, those made before a
      failure included. */
  function MapChain<T>(o: Optional<T>, mappers: seq<Stored<T -> Stored<T>>>): (r: Traced<Result<Optional<T>>, T>)
    ensures |r.calls| <= |mappers|
    ensures forall c :: c in r.calls ==> c.Applied?
    ensures r.result.Success? && |r.calls| < |mappers| ==> Get(r.result.value) == Null
    decreases |mappers|
  {
    if mappers == [] then Traced(Success(o), [])
    else
      match Map(o, mappers[0])
      case Failure(e) => Traced(Failure(e), [])
      case Success(step) =>
        var rest := MapChain(step.result, mappers[1..]);
        Traced(rest.result, step.calls + rest.calls)
  }

  /** Every mapper of the sequence is a real function. */
  predicate AllMappers<T>(mappers: seq<Stored<T -> Stored<T>>>) {
    forall i :: 0 <= i < |mappers| ==> mappers[i].Val?
  }

  /** Once a chain reaches an absent value, every later `map` stays absent,
      calls no mapper, and the value read with `get()` is `null`. */
  lemma {:induction false} AbsentChainStaysAbsent<T>(o: Optional<T>, mappers: seq<Stored<T -> Stored<T>>>)
    requires !IsPresent(o)
    requires AllMappers(mappers)
    ensures MapChain(o, mappers) == Traced(Success(if mappers == [] then o else Empty()), [])
    decreases |mappers|
  {
    if mappers != [] {
      AbsentChainStaysAbsent(Empty<T>(), mappers[1..]);
    }
  }

  /** A `null` or `undefined` mapper at position `k` makes the whole chain fail,
      whether or not a value is present when it is reached; the calls made are
      exactly those of the first `k` maps, which ran before the failure. */
  lemma {:induction false} NullMapperFailsChain<T>(o: Optional<T>, mappers: seq<Stored<T -> Stored<T>>>, k: nat)
    requires k < |mappers|
    requires !mappers[k].Val?
    ensures MapChain(o, mappers) ==
            Traced(Failure(AssertionFailed(MapperIsNullMessage)), MapChain(o, mappers[..k]).calls)
    decreases k
  {
    if k == 0 {
      assert mappers[..0] == [];
    } else if mappers[0].Val? {
      var step := Map(o, mappers[0]).value;
      NullMapperFailsChain(step.result, mappers[1..], k - 1);
      assert mappers[..k][0] == mappers[0];
      assert mappers[..k][1..] == mappers[1..][..k - 1];
    } else {
      assert mappers[..k][0] == mappers[0];
    }
  }

  /** A mapper that ran before a failing `map` of the chain keeps its call. */
  lemma EarlierCallsSurviveFailure<T>(v: T, f: T -> Stored<T>, missing: Stored<T -> Stored<T>>)
    requires !missing.Val?
    ensures MapChain(From(Val(v)), [Val(f), missing]) ==
            Traced(Failure(AssertionFailed(MapperIsNullMessage)), [Applied(v)])
  {
  }

  /** Continues a chain outcome with further mappers. */
  function Continue<T>(first: Traced<Result<Optional<T>>, T>, more: seq<Stored<T -> Stored<T>>>): (r: Traced<Result<Optional<T>>, T>) {
    match first.result
    case Failure(_) => first
    case Success(a) =>
      var b := MapChain(a, more);
      Traced(b.result, first.calls + b.calls)
  }

  /** Splitting a chain anywhere gives the same outcome and the same calls:
      the chain is a left fold of `map`. */
  lemma {:induction false} MapChainAppend<T>(o: Optional<T>, front: seq<Stored<T -> Stored<T>>>, back: seq<Stored<T -> Stored<T>>>)
    ensures MapChain(o, front + back) == Continue(MapChain(o, front), back)
    decreases |front|
  {
    if front == [] {
      assert front + back == back;
      assert [] + MapChain(o, back).calls == MapChain(o, back).calls;
    } else {
      assert (front + back)[0] == front[0];
      assert (front + back)[1..] == front[1..] + back;
      match Map(o, front[0])
      case Failure(e) =>
      case Success(step) =>
        MapChainAppend(step.result, front[1..], back);
        var a := MapChain(step.result, front[1..]);
        match a.result
        case Failure(_) =>
        case Success(ar) =>
          var b := MapChain(ar, back);
          assert step.calls + (a.calls + b.calls) == (step.calls + a.calls) + b.calls;
    }
  }

  /** When the first `k` mappers of a chain of real mappers leave the value absent,
      the rest of the chain calls nothing and ends in `null`. */
  lemma ChainStopsAtFirstAbsent<T>(o: Optional<T>, mappers: seq<Stored<T -> Stored<T>>>, k: nat)
    requires k < |mappers|
    requires AllMappers(mappers)
    requires MapChain(o, mappers[..k]).result.Success?
    requires !IsPresent(MapChain(o, mappers[..k]).result.value)
    ensures MapChain(o, mappers) ==
            Traced(Success(Empty()), MapChain(o, mappers[..k]).calls)
  {
    var front, back := mappers[..k], mappers[k..];
    assert front + back == mappers;
    MapChainAppend(o, front, back);
    var a := MapChain(o, front);
    assert AllMappers(back) by {
      forall i | 0 <= i < |back| ensures back[i].Val? {
        assert back[i] == mappers[k + i];
      }
    }
    AbsentChainStaysAbsent(a.result.value, back);
    assert a.calls + [] == a.calls;
  }

  /** The calls a chain of real mappers makes on `v` while every intermediate
      value stays present: mapper `i` applied to the value after the first `i`. */
  function PresentCalls<T>(v: T, mappers: seq<T -> Stored<T>>): (calls: seq<Call<T>>)
    requires forall i :: 0 <= i < |mappers| ==> Compose(v, mappers[..i]).Val?
    ensures |calls| == |mappers|
  {
    seq(|mappers|, i requires 0 <= i < |mappers| => Applied(Compose(v, mappers[..i]).v))
  }

  /** In a chain of real mappers where every mapper receives a present value,
      every mapper is called once, in order, on the value the previous ones
      produced, and `get()` at the end is what the last one returns, `null` and
      `undefined` included. */
  lemma {:induction false} PresentChainCallsEveryMapper<T>(v: T, mappers: seq<T -> Stored<T>>)
    requires forall i :: 0 <= i < |mappers| ==> Compose(v, mappers[..i]).Val?
    ensures MapChain(From(Val(v)), Lift(mappers)).result.Success?
    ensures MapChain(From(Val(v)), Lift(mappers)).calls == PresentCalls(v, mappers)
    ensures Get(MapChain(From(Val(v)), Lift(mappers)).result.value) == Compose(v, mappers)
  {
    if mappers != [] {
      var init := mappers[..|mappers| - 1];
      var last := mappers[|mappers| - 1];
      assert mappers == init + [last];
      assert Lift(mappers) == Lift(init) + [Val(last)] by { LiftAppend(init, [last]); }
      forall i | 0 <= i < |init| ensures Compose(v, init[..i]).Val? {
        assert init[..i] == mappers[..i];
      }
      PresentChainCallsEveryMapper(v, init);
      MapChainAppend(From(Val(v)), Lift(init), [Val(last)]);
      ComposeSnoc(v, init, last);
      var a := MapChain(From(Val(v)), Lift(init));
      assert mappers[..|init|] == init;
      assert Get(a.result.value) == Val(Compose(v, init).v);
      var step := Map(a.result.value, Val(last)).value;
      assert step.calls == [Applied(Compose(v, init).v)];
      assert Get(step.result) == Compose(v, mappers);
      assert [Val(last)][1..] == [];
      assert MapChain(a.result.value, [Val(last)]) == Traced(Success(step.result), step.calls + []);
      assert PresentCalls(v, mappers) == PresentCalls(v, init) + step.calls by {
        forall i | 0 <= i < |init| ensures PresentCalls(v, mappers)[i] == PresentCalls(v, init)[i] {
          assert mappers[..i] == init[..i];
        }
      }
    } else {
      assert PresentCalls(v, mappers) == [];
    }
  }

  /** The mappers as non-null arguments of `map`. */
  function Lift<T>(mappers: seq<T -> Stored<T>>): (r: seq<Stored<T -> Stored<T>>>)
    ensures |r| == |mappers|
    ensures forall i :: 0 <= i < |mappers| ==> r[i] == Val(mappers[i])
  {
    seq(|mappers|, i requires 0 <= i < |mappers| => Val(mappers[i]))
  }

  lemma LiftAppend<T>(a: seq<T -> Stored<T>>, b: seq<T -> Stored<T>>)
    ensures Lift(a + b) == Lift(a) + Lift(b)
  {
  }

  /** The independent reference: the mappers applied one after the other, stopping
      with `null` at the first absent result. */
  function Compose<T>(v: T, mappers: seq<T -> Stored<T>>): (r: Stored<T>)
    decreases |mappers|
  {
    if mappers == [] then Val(v)
    else AndThen(Compose(v, mappers[..|mappers| - 1]), mappers[|mappers| - 1])
  }

  lemma ComposeSnoc<T>(v: T, init: seq<T -> Stored<T>>, last: T -> Stored<T>)
    ensures Compose(v, init + [last]) == AndThen(Compose(v, init), last)
  {
  }
}
