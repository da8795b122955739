/** The self-mocking mixin (`tad_TestableObject`): a class extending it asks
    for the mocked dependencies of one of its own methods. Guard checks run
    first, then the resolver does the work for that single method. */
module SelfMocking {
  import opened Wrappers
  import opened Php
  import opened DocTags
  import opened DependencyMocking

  /** What the runtime answers the mixin: whether `get_called_class` is
      available, and the class the static call was made on. */
  datatype CallContext = CallContext(hasGetCalledClass: bool, calledClass: string)

  /** `getMocksObjectOrArrayFor($methodName, $returnObject)`: a string name
      (else code 1), a runtime with `get_called_class` (else a runtime
      error, code 2), a method of the called class (else code 3); then a
      resolver built on the called class with its default notation and
      this one method selected. */
  function GetMocksObjectOrArrayFor(rt: Runtime, ctx: CallContext, methodName: Value, returnObject: bool)
    : (r: Result<Mocks, Exception>)
    ensures !methodName.Str? ==> r == Failure(InvalidArgumentException(1))
    ensures methodName.Str? && !ctx.hasGetCalledClass ==> r == Failure(RuntimeException(2))
    ensures methodName.Str? && ctx.hasGetCalledClass && !rt.HasMethod(ctx.calledClass, methodName.s) ==>
      r == Failure(InvalidArgumentException(3))
    ensures r.Success? ==>
      && methodName.Str? && ctx.hasGetCalledClass && rt.HasMethod(ctx.calledClass, methodName.s)
      && (r.value.MockObject? <==> returnObject)
      && WellFormedRegistry(rt, map[], r.value.Pairs())
      && r.value.Pairs().keys == Unique(DocNames(rt.docComments[(ctx.calledClass, methodName.s)], "@" + DefaultNotation))
  {
    if !methodName.Str? then Failure(InvalidArgumentException(1))
    else if !ctx.hasGetCalledClass then Failure(RuntimeException(2))
    else if !rt.HasMethod(ctx.calledClass, methodName.s) then Failure(InvalidArgumentException(3))
    else
      match ValidatedClassName(rt, Str(ctx.calledClass))
      case Failure(e) => Failure(e)
      case Success(className) =>
        SingleMethodNames(rt, className, methodName.s, Some(DefaultNotation));
        Shaped(returnObject, Resolve(rt, className, One(methodName.s), Some(DefaultNotation), map[]))
  }

  /** `getMocksFor($methodName)`: the mocks as an object whose properties
      are the method's de-duplicated dependency names. */
  function GetMocksFor(rt: Runtime, ctx: CallContext, methodName: Value): (r: Result<Mocks, Exception>)
    ensures !methodName.Str? ==> r == Failure(InvalidArgumentException(1))
    ensures r.Failure? ==> r.error.InvalidArgumentException? || r.error.RuntimeException? || r.error.MissingClass?
    ensures r.Success? ==>
      && r.value.MockObject?
      && methodName.Str? && rt.HasMethod(ctx.calledClass, methodName.s)
      && r.value.Pairs().keys == Unique(DocNames(rt.docComments[(ctx.calledClass, methodName.s)], "@" + DefaultNotation))
  {
    GetMocksObjectOrArrayFor(rt, ctx, methodName, true)
  }

  /** `getMocksArrayFor($methodName)`: the same mocks as an array keyed by
      the dependency names. */
  function GetMocksArrayFor(rt: Runtime, ctx: CallContext, methodName: Value): (r: Result<Mocks, Exception>)
    ensures !methodName.Str? ==> r == Failure(InvalidArgumentException(1))
    ensures r.Failure? ==> r.error.InvalidArgumentException? || r.error.RuntimeException? || r.error.MissingClass?
    ensures r.Success? ==>
      && r.value.MockArray?
      && methodName.Str? && rt.HasMethod(ctx.calledClass, methodName.s)
      && r.value.Pairs().keys == Unique(DocNames(rt.docComments[(ctx.calledClass, methodName.s)], "@" + DefaultNotation))
  {
    GetMocksObjectOrArrayFor(rt, ctx, methodName, false)
  }

  /** The two entry points fail alike and otherwise hold the same pairs,
      one as an object and one as an array. */
  lemma ShapesDifferOnly(rt: Runtime, ctx: CallContext, methodName: Value)
    ensures GetMocksFor(rt, ctx, methodName).Success? <==> GetMocksArrayFor(rt, ctx, methodName).Success?
    ensures GetMocksFor(rt, ctx, methodName).Failure? ==>
      GetMocksFor(rt, ctx, methodName).error == GetMocksArrayFor(rt, ctx, methodName).error
    ensures GetMocksFor(rt, ctx, methodName).Success? ==>
      && GetMocksFor(rt, ctx, methodName).value.MockObject?
      && GetMocksArrayFor(rt, ctx, methodName).value.MockArray?
      && GetMocksFor(rt, ctx, methodName).value.Pairs() == GetMocksArrayFor(rt, ctx, methodName).value.Pairs()
  {
  }

  /** The mixin gives what the resolver gives when built on the called
      class and pointed at the one method: the delegation runs the builder
      itself. */
  method ViaResolver(rt: Runtime, ctx: CallContext, methodName: Value, returnObject: bool)
    returns (r: Result<Mocks, Exception>)
    ensures r == GetMocksObjectOrArrayFor(rt, ctx, methodName, returnObject)
  {
    if !methodName.Str? {
      return Failure(InvalidArgumentException(1));
    }
    if !ctx.hasGetCalledClass {
      return Failure(RuntimeException(2));
    }
    if !rt.HasMethod(ctx.calledClass, methodName.s) {
      return Failure(InvalidArgumentException(3));
    }
    var mocker :- DependencyMocker.New(rt, Str(ctx.calledClass), Null, None, Some(DefaultNotation));
    var chained := mocker.ForMethods(methodName);
    if returnObject {
      r := mocker.GetMocks(rt);
    } else {
      r := mocker.GetMocksArray(rt);
    }
  }
}
