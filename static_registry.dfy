/** The late-static-binding registry (`tad_Static`): a process-wide table
    from a parent class to the child class that should receive its static
    calls, and the rule that picks the receiver of a call. */
module LateStaticBinding {
  import opened Wrappers
  import opened Php

  /** The static call `call` hands to `call_user_func_array`: the receiving
      class, the method and the arguments passed on. */
  datatype Invocation<A> = Invocation(className: string, methodName: string, args: seq<A>)

  /** The registered child of `parent` as `getClassExtending` reports it:
      none when the key is absent or holds null. */
  function ChildOf(classes: map<string, Option<string>>, parent: string): Option<string> {
    if parent in classes then classes[parent] else None
  }

  /** The table after `setClassExtending(parent, child)`. */
  function Registered(classes: map<string, Option<string>>, parent: string, child: string): map<string, Option<string>> {
    classes[parent := Some(child)]
  }

  /** The table after `reset($parentClass)`: emptied when the argument is
      missing or PHP-false ("" or "0"), otherwise that key is set to null. */
  function Cleared(classes: map<string, Option<string>>, parent: Option<string>): map<string, Option<string>> {
    if parent.None? || IsFalsyString(parent.value) then map[] else classes[parent.value := None]
  }

  /** The receiver `call` picks. The parent receives the call only when it
      is not a key of the table and defines the method; otherwise the
      registered child must define it. A missing or PHP-false receiver
      throws code 1. */
  function Target(rt: Runtime, classes: map<string, Option<string>>, parent: string, methodName: string)
    : (r: Result<string, Exception>)
    ensures r.Failure? ==> r.error == BadMethodCallException(1)
    ensures r.Success? ==> rt.HasMethod(r.value, methodName) && !IsFalsyString(r.value)
    ensures r.Success? && parent !in classes ==> r.value == parent
    ensures r.Success? && parent in classes ==> classes[parent] == Some(r.value)
    ensures r.Success? <==>
      || (parent !in classes && rt.HasMethod(parent, methodName) && !IsFalsyString(parent))
      || (ChildOf(classes, parent).Some? && rt.HasMethod(ChildOf(classes, parent).value, methodName)
          && !IsFalsyString(ChildOf(classes, parent).value))
  {
    var chosen :=
      if parent !in classes && rt.HasMethod(parent, methodName) then Some(parent)
      else if ChildOf(classes, parent).Some? && rt.HasMethod(ChildOf(classes, parent).value, methodName) then ChildOf(classes, parent)
      else None;
    if chosen.None? || IsFalsyString(chosen.value) then Failure(BadMethodCallException(1))
    else Success(chosen.value)
  }

  /** The whole of `call`: the chosen receiver, the method, and every
      argument after the first two, in order. */
  function Dispatch<A>(rt: Runtime, classes: map<string, Option<string>>, parent: string, methodName: string, args: seq<A>)
    : (r: Result<Invocation<A>, Exception>)
    ensures r.Success? <==> Target(rt, classes, parent, methodName).Success?
    ensures r.Success? ==> r.value == Invocation(Target(rt, classes, parent, methodName).value, methodName, args)
    ensures r.Failure? ==> r.error == BadMethodCallException(1)
  {
    match Target(rt, classes, parent, methodName)
    case Failure(e) => Failure(e)
    case Success(receiver) => Success(Invocation(receiver, methodName, args))
  }

  /** A registration is read back, later ones win, and other parents keep
      their child. */
  lemma RegisteredThenRead(classes: map<string, Option<string>>, parent: string, child: string, other: string)
    ensures ChildOf(Registered(classes, parent, child), parent) == Some(child)
    ensures other != parent ==> ChildOf(Registered(classes, parent, child), other) == ChildOf(classes, other)
    ensures forall c' :: ChildOf(Registered(Registered(classes, parent, c'), parent, child), parent) == Some(child)
  {
  }

  /** Resetting everything leaves no child for any parent. */
  lemma ClearedAll(classes: map<string, Option<string>>, parent: Option<string>, anyParent: string)
    requires parent.None? || IsFalsyString(parent.value)
    ensures ChildOf(Cleared(classes, parent), anyParent) == None
  {
  }

  /** Resetting one parent nulls its child and keeps every other one. */
  lemma ClearedOne(classes: map<string, Option<string>>, parent: string, other: string)
    requires !IsFalsyString(parent)
    ensures ChildOf(Cleared(classes, Some(parent)), parent) == None
    ensures other != parent ==> ChildOf(Cleared(classes, Some(parent)), other) == ChildOf(classes, other)
  {
  }

  /** With a child registered, the parent never receives the call, even
      when the child lacks the method and the parent defines it. */
  lemma ChildShadowsParent(rt: Runtime, classes: map<string, Option<string>>, parent: string, child: string, methodName: string)
    requires ChildOf(classes, parent) == Some(child)
    ensures Target(rt, classes, parent, methodName).Success? <==> rt.HasMethod(child, methodName) && !IsFalsyString(child)
    ensures Target(rt, classes, parent, methodName).Success? ==> Target(rt, classes, parent, methodName).value == child
  {
  }

  /** After `reset(parent)` the key stays, holding null, so a call on that
      parent throws instead of falling back to the parent's own method. */
  lemma ClearedOneBlocksParent(rt: Runtime, classes: map<string, Option<string>>, parent: string, methodName: string)
    requires !IsFalsyString(parent)
    ensures Target(rt, Cleared(classes, Some(parent)), parent, methodName) == Failure(BadMethodCallException(1))
  {
  }

  /** After resetting everything, a parent defining the method receives it. */
  lemma ClearedAllRestoresParent(rt: Runtime, classes: map<string, Option<string>>, parent: string, methodName: string)
    requires rt.HasMethod(parent, methodName) && !IsFalsyString(parent)
    ensures Target(rt, Cleared(classes, None), parent, methodName) == Success(parent)
  {
  }

  /** `tad_Static`'s static `$classes` table. */
  class StaticRegistry {
    var classes: map<string, Option<string>>

    constructor ()
      ensures classes == map[]
    {
      classes := map[];
    }

    /** `getClassExtending`: null unless the key is set to a child. */
    method GetClassExtending(parent: string) returns (child: Option<string>)
      ensures child == ChildOf(classes, parent)
      ensures child.Some? <==> parent in classes && classes[parent].Some?
    {
      if parent !in classes || classes[parent].None? {
        return None;
      }
      child := classes[parent];
    }

    /** `setClassExtending`: no check that the child extends the parent. */
    method SetClassExtending(parent: string, child: string)
      modifies this
      ensures classes == Registered(old(classes), parent, child)
    {
      classes := classes[parent := Some(child)];
    }

    method Reset(parent: Option<string>)
      modifies this
      ensures classes == Cleared(old(classes), parent)
    {
      if parent.None? || IsFalsyString(parent.value) {
        classes := map[];
      } else {
        classes := classes[parent.value := None];
      }
    }

    /** `call($parentClass, $method, ...)`: `args` are the arguments after
        the first two. */
    method Call<A>(rt: Runtime, parent: string, methodName: string, args: seq<A>) returns (r: Result<Invocation<A>, Exception>)
      ensures r == Dispatch(rt, classes, parent, methodName, args)
    {
      var receiver: Option<string> := None;
      if parent !in classes && rt.HasMethod(parent, methodName) {
        receiver := Some(parent);
      } else {
        var childClass := if parent in classes then classes[parent] else None;
        if childClass.Some? && rt.HasMethod(childClass.value, methodName) {
          receiver := childClass;
        }
      }
      if receiver.None? || IsFalsyString(receiver.value) {
        return Failure(BadMethodCallException(1));
      }
      r := Success(Invocation(receiver.value, methodName, args));
    }
  }

  /** Two parents registered, one reset: the reset one reads null, the
      other keeps its child. */
  method ResetOneScenario(parent1: string, child1: string, parent2: string, child2: string)
    returns (read1: Option<string>, read2: Option<string>)
    requires parent1 != parent2 && !IsFalsyString(parent1)
    ensures read1 == None && read2 == Some(child2)
  {
    var r := new StaticRegistry();
    r.SetClassExtending(parent1, child1);
    r.SetClassExtending(parent2, child2);
    r.Reset(Some(parent1));
    read1 := r.GetClassExtending(parent1);
    read2 := r.GetClassExtending(parent2);
  }

  /** A child registered for a parent receives the parent's static calls
      with the arguments passed on. */
  method ChildReceivesScenario<A>(rt: Runtime, parent: string, child: string, methodName: string, args: seq<A>)
    returns (r: Result<Invocation<A>, Exception>)
    requires rt.HasMethod(child, methodName) && !IsFalsyString(child)
    ensures r == Success(Invocation(child, methodName, args))
  {
    var registry := new StaticRegistry();
    registry.Reset(None);
    registry.SetClassExtending(parent, child);
    r := registry.Call(rt, parent, methodName, args);
  }
}
