/** The observer registry of `observers.js`: a broadcaster keeps, per
    selector, an ordered list of listeners and calls them in order when it
    broadcasts under that selector. */
module Observers {
  import opened Wrappers

  /** What `addListener` is handed: a function, or an object one of whose
      methods is to be called. Functions and objects are known by their
      identity. */
  datatype Receiver = FunctionReceiver(callable: nat) | ObjectReceiver(target: nat)

  /** What the listener list holds: the function itself, or the wrapper
      function made for an object, which calls the named method on it. */
  datatype Listener = Callable(callable: nat) | Relay(target: nat, methodName: string)

  /** One call a broadcast makes: a listener function or an object's
      method, with the argument list it is applied to. */
  datatype Invocation<V> =
    | Called(callable: nat, arguments: seq<V>)
    | MethodCalled(target: nat, methodName: string, arguments: seq<V>)

  /** The listener `addListener` stores for a receiver: the function as
      given, or a wrapper calling the method named `methodName`, by default
      the selector. */
  function Stored(receiver: Receiver, selector: string, methodName: Option<string>): Listener
  {
    match receiver
    case FunctionReceiver(callable) => Callable(callable)
    case ObjectReceiver(target) => Relay(target, if methodName.Some? then methodName.value else selector)
  }

  /** `===` between what `removeListener`/`hasListener` are handed and a
      stored listener: only a function can be the very object stored; a
      wrapper is a fresh function nobody else holds. */
  predicate Identical(receiver: Receiver, listener: Listener)
  {
    receiver.FunctionReceiver? && listener == Callable(receiver.callable)
  }

  /** `indexOf`: the first position of a listener identical to the
      receiver, or -1. */
  function IndexOf(listeners: seq<Listener>, receiver: Receiver): (index: int)
    ensures -1 <= index < |listeners|
    ensures index == -1 <==> forall i :: 0 <= i < |listeners| ==> !Identical(receiver, listeners[i])
    ensures 0 <= index ==> Identical(receiver, listeners[index])
    ensures 0 <= index ==> forall i :: 0 <= i < index ==> !Identical(receiver, listeners[i])
  {
    if listeners == [] then -1
    else if Identical(receiver, listeners[0]) then 0
    else
      var rest := IndexOf(listeners[1..], receiver);
      if rest < 0 then -1 else rest + 1
  }

  /** `splice(index, 1)`: the list without the element at `index`. */
  function RemoveAt<T>(s: seq<T>, index: int): (r: seq<T>)
    requires 0 <= index < |s|
    ensures |r| == |s| - 1
    ensures forall i :: 0 <= i < index ==> r[i] == s[i]
    ensures forall i :: index <= i < |r| ==> r[i] == s[i + 1]
  {
    s[..index] + s[index + 1..]
  }

  /** Removing one element takes exactly that element out of the
      multiset of elements. */
  lemma RemoveAtMultiset<T>(s: seq<T>, index: int)
    requires 0 <= index < |s|
    ensures multiset(RemoveAt(s, index)) + multiset{s[index]} == multiset(s)
  {
    assert s == s[..index] + [s[index]] + s[index + 1..];
  }

  /** The listeners of a selector: its list, or none when the selector
      was never used. */
  function ListenersFor(listenerMap: map<string, seq<Listener>>, selector: string): seq<Listener>
  {
    if selector in listenerMap then listenerMap[selector] else []
  }

  /** What the listener is called with: a function gets the argument
      list, a wrapper forwards it to its object's method. */
  function Deliver<V>(listener: Listener, arguments: seq<V>): Invocation<V>
  {
    match listener
    case Callable(callable) => Called(callable, arguments)
    case Relay(target, methodName) => MethodCalled(target, methodName, arguments)
  }

  /** The calls a broadcast makes, one per listener, in list order. */
  function Deliveries<V>(listeners: seq<Listener>, arguments: seq<V>): (calls: seq<Invocation<V>>)
    ensures |calls| == |listeners|
    ensures forall i :: 0 <= i < |listeners| ==> calls[i] == Deliver(listeners[i], arguments)
  {
    seq(|listeners|, i requires 0 <= i < |listeners| => Deliver(listeners[i], arguments))
  }

  /** Adding a function the selector does not have and then removing it
      gives back the list as it was: the new listener is the one found,
      at the end. */
  lemma AddRemoveRoundTrip(listeners: seq<Listener>, callable: nat)
    requires Callable(callable) !in listeners
    ensures var added := listeners + [Callable(callable)];
            && IndexOf(added, FunctionReceiver(callable)) == |listeners|
            && RemoveAt(added, |listeners|) == listeners
  {
    var added := listeners + [Callable(callable)];
    assert Identical(FunctionReceiver(callable), added[|listeners|]);
    assert forall i :: 0 <= i < |listeners| ==> added[i] == listeners[i];
    assert added[..|listeners|] == listeners;
  }

  /** `mixinBroadcaster`: the listener registry and the log of the calls
      its broadcasts made. `self` is the value a broadcast passes as its
      source when none is given. */
  class Broadcaster<V> {
    const self: V
    var listenerMap: map<string, seq<Listener>>
    var invocations: seq<Invocation<V>>

    constructor(self: V)
      ensures this.self == self && listenerMap == map[] && invocations == []
    {
      this.self := self;
      listenerMap := map[];
      invocations := [];
    }

    /** `addListener`: the selector's list, made on first use, with the
        listener appended at the end. */
    method AddListener(selector: string, receiver: Receiver, methodName: Option<string>)
      modifies this
      ensures listenerMap == old(listenerMap)[selector := old(ListenersFor(listenerMap, selector))
                                                           + [Stored(receiver, selector, methodName)]]
      ensures invocations == old(invocations)
    {
      var listeners: seq<Listener>;
      if selector !in listenerMap {
        listeners := [];
        listenerMap := listenerMap[selector := listeners];
      } else {
        listeners := listenerMap[selector];
      }
      match receiver {
        case FunctionReceiver(callable) =>
          listeners := listeners + [Callable(callable)];
        case ObjectReceiver(target) =>
          var name := if methodName.None? then selector else methodName.value;
          listeners := listeners + [Relay(target, name)];
      }
      listenerMap := listenerMap[selector := listeners];
    }

    /** `hasListener`: whether the selector's list holds the receiver
        itself. */
    function HasListener(selector: string, receiver: Receiver): (has: bool)
      reads this
      ensures has <==> receiver.FunctionReceiver? && Callable(receiver.callable) in ListenersFor(listenerMap, selector)
    {
      if selector !in listenerMap then false
      else IndexOf(listenerMap[selector], receiver) >= 0
    }

    /** `removeListener`: the first occurrence of the receiver taken out
        of the selector's list, reporting whether there was one. */
    method RemoveListener(selector: string, receiver: Receiver) returns (removed: bool)
      modifies this
      ensures removed == old(HasListener(selector, receiver))
      ensures removed ==> listenerMap == old(listenerMap)[selector := RemoveAt(old(listenerMap[selector]),
                                                            IndexOf(old(listenerMap[selector]), receiver))]
      ensures !removed ==> listenerMap == old(listenerMap)
      ensures invocations == old(invocations)
    {
      if selector !in listenerMap {
        return false;
      }
      var listeners := listenerMap[selector];
      var index := IndexOf(listeners, receiver);
      if index < 0 {
        return false;
      }
      listenerMap := listenerMap[selector := listeners[..index] + listeners[index + 1..]];
      return true;
    }

    /** `sendBroadcast`: each listener of the selector called in order
        with the arguments followed by the source, by default this
        broadcaster. A selector nobody listens to calls nothing. */
    method SendBroadcast(selector: string, arguments: seq<V>, source: Option<V>)
      modifies this
      ensures listenerMap == old(listenerMap)
      ensures invocations == old(invocations)
                             + Deliveries(ListenersFor(listenerMap, selector),
                                          arguments + [if source.Some? then source.value else self])
    {
      var from := if source.None? then self else source.value;
      if selector !in listenerMap {
        return;
      }
      var listeners := listenerMap[selector];
      var listenerArguments := arguments + [from];
      for index := 0 to |listeners|
        invariant listenerMap == old(listenerMap)
        invariant invocations == old(invocations) + Deliveries(listeners[..index], listenerArguments)
      {
        assert listeners[..index + 1] == listeners[..index] + [listeners[index]];
        invocations := invocations + [Deliver(listeners[index], listenerArguments)];
      }
      assert listeners[..|listeners|] == listeners;
    }

    /** `broadcast`: a `sendBroadcast` of the arguments after the
        selector, from this broadcaster. */
    method Broadcast(selector: string, arguments: seq<V>)
      modifies this
      ensures listenerMap == old(listenerMap)
      ensures invocations == old(invocations) + Deliveries(ListenersFor(listenerMap, selector), arguments + [self])
    {
      SendBroadcast(selector, arguments, None);
    }
  }
}
