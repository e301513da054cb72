/** A model of the `Optional<T>` absence-handling container.

    The container holds one JavaScript value that may be `null`, `undefined`
    or a real value, and never changes it after construction. Every operation
    is a pure function of the container and of the callbacks the caller passes.
    A callback that only has an effect (a Consumer, a Runnable) needs no
    parameter here: what the caller can observe of it is whether it ran and
    with which argument, and the operations return that as a list of calls.
 */
module Optionals {

  /** A JavaScript value as the container sees it. */
  datatype Stored<+T> = Null | Undefined | Val(v: T)

  /** One invocation of a caller-supplied callback: a Consumer or a mapper
      applied to an argument, or a Runnable or Supplier invoked with none. */
  datatype Call<+T> = Applied(arg: T) | Invoked

  /** A result together with the callback invocations that produced it, in order. */
  datatype Traced<+A, +T> = Traced(result: A, calls: seq<Call<T>>)

  /** The failure raised when an argument assertion does not hold. */
  datatype Error = AssertionFailed(message: string)

  datatype Result<+R> = Success(value: R) | Failure(error: Error)

  /** The message `map` fails with when its mapper is `null` or `undefined`. */
  const MapperIsNullMessage: string := "a funcao do mapper nao estar nulla"

  /** The container. Its only field is set once, by the constructor. */
  datatype Optional<+T> = Optional(value: Stored<T>)

  /** The "is null or undefined" test the container relies on. */
  predicate IsNullOrUndefined<T>(x: Stored<T>) {
    x.Null? || x.Undefined?
  }

  /** The complementary "is neither null nor undefined" test. */
  predicate IsNotNullOrUndefined<T>(x: Stored<T>) {
    !IsNullOrUndefined(x)
  }

  /** `Optional.from(value)`: wraps the value as it is, `null` and `undefined` included. */
  function From<T>(value: Stored<T>): (o: Optional<T>)
    ensures Get(o) == value
    ensures IsPresent(o) <==> value.Val?
  {
    Optional(value)
  }

  /** `Optional.empty()`: a container holding `null`. */
  function Empty<T>(): (o: Optional<T>)
    ensures Get(o) == Null
    ensures !IsPresent(o)
  {
    Optional(Null)
  }

  /** `get()`: the stored value, unchanged; wrapping it again gives back the same container. */
  function Get<T>(o: Optional<T>): (r: Stored<T>)
    ensures Optional(r) == o
  {
    o.value
  }

  /** `isPresent()`. */
  function IsPresent<T>(o: Optional<T>): (r: bool)
    ensures r <==> Get(o).Val?
  {
    IsNotNullOrUndefined(o.value)
  }

  /** `isNotPresent()`. */
  function IsNotPresent<T>(o: Optional<T>): (r: bool)
    ensures r <==> Get(o) == Null || Get(o) == Undefined
    ensures r == !IsPresent(o)
  {
    IsNullOrUndefined(o.value)
  }

  /** `ifPresent(func)`: the calls made to `func`. */
  function IfPresent<T>(o: Optional<T>): (calls: seq<Call<T>>)
    ensures |calls| <= 1
    ensures calls == [] <==> !IsPresent(o)
    ensures forall c :: c in calls ==> c == Applied(Get(o).v)
  {
    if IsNotNullOrUndefined(o.value) then [Applied(o.value.v)] else []
  }

  /** `ifPresentOrElse(presentFunc, notPresentFunc)`: the calls made to the two
      callbacks; `Applied` is a call of `presentFunc`, `Invoked` one of `notPresentFunc`. */
  function IfPresentOrElse<T>(o: Optional<T>): (calls: seq<Call<T>>)
    ensures |calls| == 1
    ensures calls[0].Applied? <==> IsPresent(o)
    ensures calls[0].Applied? ==> calls[0].arg == Get(o).v
  {
    if IsNotNullOrUndefined(o.value) then [Applied(o.value.v)] else [Invoked]
  }

  /** `map(mapper)`: fails when the mapper itself is `null` or `undefined`;
      otherwise wraps what the mapper returns for a present value, and is the
      empty container, without calling the mapper, for an absent one. */
  function Map<T, R>(o: Optional<T>, mapper: Stored<T -> Stored<R>>): (r: Result<Traced<Optional<R>, T>>)
    ensures r.Failure? <==> !mapper.Val?
    ensures r.Failure? ==> r.error == AssertionFailed(MapperIsNullMessage)
    ensures r.Success? ==> (r.value.calls == [] <==> !IsPresent(o))
    ensures r.Success? && IsPresent(o) ==>
              r.value.calls == [Applied(Get(o).v)] && Get(r.value.result) == mapper.v(Get(o).v)
    ensures r.Success? && !IsPresent(o) ==> Get(r.value.result) == Null
  {
    if IsNullOrUndefined(mapper) then
      Failure(AssertionFailed(MapperIsNullMessage))
    else if IsPresent(o) then
      Success(Traced(From(mapper.v(o.value.v)), [Applied(o.value.v)]))
    else
      Success(Traced(Empty(), []))
  }

  /** `orElse(other)`: the stored value when present, `other` otherwise. */
  function OrElse<T>(o: Optional<T>, other: T): (r: T)
    ensures IsPresent(o) ==> Stored.Val(r) == Get(o)
    ensures !IsPresent(o) ==> r == other
  {
    if IsNullOrUndefined(o.value) then other else o.value.v
  }

  /** `orElseGet(supplier)`: the stored value when present, what the supplier
      returns otherwise; the supplier is called only in the second case. */
  function OrElseGet<T>(o: Optional<T>, supplier: () -> T): (r: Traced<T, T>)
    ensures IsPresent(o) ==> Stored.Val(r.result) == Get(o) && r.calls == []
    ensures !IsPresent(o) ==> r.result == supplier() && r.calls == [Invoked]
  {
    if IsNullOrUndefined(o.value) then Traced(supplier(), [Invoked]) else Traced(o.value.v, [])
  }
}
