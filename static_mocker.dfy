/** The static-call stub (`tad_StaticMocker`): a class whose undefined
    static calls either go to a listener object, when it has the method, or
    return the value stored for that name. */
module StaticCallStubs {
  import opened Wrappers

  /** A listener object: its identity and the methods `method_exists`
      finds on it. */
  datatype Listener = Listener(id: nat, methods: set<string>)

  /** What a static call does: forwards to the listener with the same
      arguments, or returns a stored value (`None` is PHP's null). */
  datatype Answer<V, A> = Forwarded(listener: Listener, methodName: string, args: seq<A>) | Returned(value: Option<V>)

  /** `__callStatic($func, $args)`: the listener answers when it is set and
      has the method; otherwise the table entry is returned, null when the
      name was never added. */
  function StaticAnswer<V, A>(methods: map<string, Option<V>>, listener: Option<Listener>, func: string, args: seq<A>)
    : (a: Answer<V, A>)
    ensures a.Forwarded? <==> listener.Some? && func in listener.value.methods
    ensures a.Forwarded? ==> a.listener == listener.value && a.methodName == func && a.args == args
    ensures a.Returned? && func in methods ==> a.value == methods[func]
    ensures a.Returned? && func !in methods ==> a.value == None
  {
    if listener.Some? && func in listener.value.methods then Forwarded(listener.value, func, args)
    else Returned(if func in methods then methods[func] else None)
  }

  /** With no listener, a call returns the value added last for that name. */
  lemma AddedValueIsReturned<V, A>(methods: map<string, Option<V>>, func: string, first: Option<V>, last: Option<V>, args: seq<A>)
    ensures StaticAnswer(methods[func := last], None, func, args) == Returned(last)
    ensures StaticAnswer(methods[func := first][func := last], None, func, args) == Returned(last)
  {
  }

  /** A listener with the method takes the call whatever the table holds. */
  lemma ListenerTakesPrecedence<V, A>(methods: map<string, Option<V>>, listener: Listener, func: string, args: seq<A>)
    requires func in listener.methods
    ensures StaticAnswer(methods, Some(listener), func, args) == Forwarded(listener, func, args)
  {
  }

  /** A listener without the method is not called; the table answers. */
  lemma ListenerLacksMethod<V, A>(methods: map<string, Option<V>>, listener: Listener, func: string, args: seq<A>)
    requires func !in listener.methods
    ensures StaticAnswer(methods, Some(listener), func, args) == StaticAnswer(methods, None, func, args)
  {
  }

  /** After a reset every call returns null. */
  lemma ResetAnswersNull<V, A>(func: string, args: seq<A>)
    ensures StaticAnswer<V, A>(map[], None, func, args) == Returned(None)
  {
  }

  /** `tad_StaticMocker`'s static `$methods` table and `$listener`. */
  class StaticMocker<V> {
    var methods: map<string, Option<V>>
    var listener: Option<Listener>

    constructor ()
      ensures methods == map[] && listener == None
    {
      methods := map[];
      listener := None;
    }

    method CallStatic<A>(func: string, args: seq<A>) returns (a: Answer<V, A>)
      ensures a == StaticAnswer(methods, listener, func, args)
    {
      if listener.Some? && func in listener.value.methods {
        return Forwarded(listener.value, func, args);
      }
      a := Returned(if func in methods then methods[func] else None);
    }

    /** `_addMethod($func, $returnValue = null)`: a later call for the same
        name overrides the earlier value. */
    method AddMethod(func: string, returnValue: Option<V>)
      modifies this`methods
      ensures methods == old(methods)[func := returnValue]
    {
      methods := methods[func := returnValue];
    }

    /** `_reset`: empties the table and clears the listener. */
    method Reset()
      modifies this
      ensures methods == map[] && listener == None
    {
      methods := map[];
      SetListener(None);
    }

    /** `_setListener($listener = null)`. */
    method SetListener(l: Option<Listener>)
      modifies this`listener
      ensures listener == l
    {
      listener := l;
    }

    method GetListener() returns (l: Option<Listener>)
      ensures l == listener
    {
      l := listener;
    }
  }

  /** A listener that has only `someMethod` receives that call with its
      argument, while `someOtherMethod` is answered from the table. */
  method ListenerScenario<V>(someValue: V) returns (first: Answer<V, V>, second: Answer<V, V>)
    ensures first == Forwarded(Listener(0, {"someMethod"}), "someMethod", [someValue])
    ensures second == Returned(None)
  {
    var s := new StaticMocker<V>();
    s.SetListener(Some(Listener(0, {"someMethod"})));
    s.AddMethod("someMethod", None);
    s.AddMethod("someOtherMethod", None);
    first := s.CallStatic("someMethod", [someValue]);
    second := s.CallStatic("someOtherMethod", []);
  }

  /** A listener set is read back and setting none clears it; set again,
      it is read back and a reset clears it; a value added with no listener
      is what the call returns. */
  method ResetScenario<V>(someValue: V, w: Listener)
    returns (seen: Option<Listener>, unset: Option<Listener>, seenAgain: Option<Listener>,
             cleared: Option<Listener>, answer: Answer<V, V>)
    ensures seen == Some(w) && unset == None
    ensures seenAgain == Some(w) && cleared == None
    ensures answer == Returned(Some(someValue))
  {
    var s := new StaticMocker<V>();
    s.SetListener(Some(w));
    seen := s.GetListener();
    s.SetListener(None);
    unset := s.GetListener();
    s.SetListener(Some(w));
    seenAgain := s.GetListener();
    s.Reset();
    cleared := s.GetListener();
    s.AddMethod("someMethod", Some(someValue));
    answer := s.CallStatic("someMethod", []);
  }
}
