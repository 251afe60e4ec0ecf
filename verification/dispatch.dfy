/** Dispatch of a method call over the registered modules, with the lock operations and
    handler calls it makes (src/dbus-server/server.c), and the buffer module as its
    registered content (src/dbus-server/modules/buffer_module.c). */
module Dispatch {
  import opened Options
  import opened ModuleLib
  import opened ModuleRegistry

  datatype Reply = Handled | NeedMemory | NotYetHandled

  datatype Event = Lock | Unlock | Call(handler: nat) | SendUnknownMethod

  function Handler(ifaces: seq<Interface>, q: Query): Option<nat> {
    match Lookup(ifaces, q)
    case Some(m) => m.handler
    case None => None
  }

  /** The handler of the first module, in registration order, whose first matching method
      has one. */
  function Selected(ms: seq<seq<Interface>>, q: Query): Option<nat> {
    if ms == [] then None
    else if Handler(ms[0], q).Some? then Handler(ms[0], q)
    else Selected(ms[1..], q)
  }

  lemma {:induction false} SelectedIsFirst(ms: seq<seq<Interface>>, q: Query)
    ensures Selected(ms, q).None? <==> forall i :: 0 <= i < |ms| ==> Handler(ms[i], q).None?
    ensures Selected(ms, q).Some? ==>
      exists i :: 0 <= i < |ms| && Selected(ms, q) == Handler(ms[i], q)
               && forall j :: 0 <= j < i ==> Handler(ms[j], q).None?
  {
    if ms != [] && Handler(ms[0], q).None? {
      SelectedIsFirst(ms[1..], q);
      assert forall i :: 1 <= i < |ms| ==> ms[i] == ms[1..][i - 1];
      if Selected(ms, q).Some? {
        var i :| 0 <= i < |ms[1..]| && Selected(ms, q) == Handler(ms[1..][i], q)
              && forall j :: 0 <= j < i ==> Handler(ms[1..][j], q).None?;
        assert Selected(ms, q) == Handler(ms[i + 1], q);
        assert forall j :: 1 <= j < i + 1 ==> ms[j] == ms[1..][j - 1];
      }
    }
  }

  /** This module's first method of that name, in an interface of that name and path, has
      this handler. */
  predicate HandlesWith(ifaces: seq<Interface>, q: Query, h: nat) {
    exists i: nat, k: nat :: i < |ifaces| && k < |ifaces[i].methods|
      && FirstAt(ifaces, q, i, k) && ifaces[i].methods[k].handler == Some(h)
  }

  lemma HandlerExactly(ifaces: seq<Interface>, q: Query, h: nat)
    ensures Handler(ifaces, q) == Some(h) <==> HandlesWith(ifaces, q, h)
  {
    var i, k := LookupAt(ifaces, q);
    if j: nat, l: nat :| j < |ifaces| && l < |ifaces[j].methods|
                         && FirstAt(ifaces, q, j, l) && ifaces[j].methods[l].handler == Some(h) {
      FirstAtOnce(ifaces, q, i, k, j, l);
    }
  }

  /** The selected handler is that of the first module that handles the call, told on the
      lists of interfaces and methods. */
  lemma SelectedExactly(ms: seq<seq<Interface>>, q: Query, h: nat)
    ensures Selected(ms, q) == Some(h) <==>
      exists a :: 0 <= a < |ms| && HandlesWith(ms[a], q, h)
                  && forall b, g :: 0 <= b < a ==> !HandlesWith(ms[b], q, g)
  {
    SelectedIsFirst(ms, q);
    forall a, g | 0 <= a < |ms| { HandlerExactly(ms[a], q, g); }
    if a :| 0 <= a < |ms| && HandlesWith(ms[a], q, h) && forall b, g :: 0 <= b < a ==> !HandlesWith(ms[b], q, g) {
      assert Handler(ms[a], q) == Some(h);
      var c :| 0 <= c < |ms| && Selected(ms, q) == Handler(ms[c], q)
            && forall j :: 0 <= j < c ==> Handler(ms[j], q).None?;
      assert HandlesWith(ms[c], q, Handler(ms[c], q).value);
      assert a == c;
    }
  }

  // ----- The loop of handle_method_call, one iteration at a time -----

  datatype Loop = Loop(at: nat, calls: nat, result: Reply, trace: seq<Event>)

  const Start: Loop := Loop(0, 0, NotYetHandled, [Lock])

  predicate Running(ms: seq<seq<Interface>>, l: Loop) {
    l.at < |ms| && l.result.NotYetHandled?
  }

  /** `replies(k)` is what the k-th handler call returns. */
  function Iteration(ms: seq<seq<Interface>>, q: Query, replies: nat -> Reply, l: Loop): Loop
    requires Running(ms, l)
  {
    match Handler(ms[l.at], q)
    case Some(h) =>
      var r := replies(l.calls);
      Loop(l.at, l.calls + 1, r,
           l.trace + [Unlock, Call(h)] + if r.NotYetHandled? then [Lock] else [])
    case None => l.(at := l.at + 1)
  }

  function Iterate(ms: seq<seq<Interface>>, q: Query, replies: nat -> Reply, n: nat): Loop {
    if n == 0 then Start
    else
      var l := Iterate(ms, q, replies, n - 1);
      if Running(ms, l) then Iteration(ms, q, replies, l) else l
  }

  ghost predicate Terminates(ms: seq<seq<Interface>>, q: Query, replies: nat -> Reply) {
    exists n :: !Running(ms, Iterate(ms, q, replies, n))
  }

  /** `k` refused calls of the handler, each with the mutex given up and taken back. */
  function Refused(h: nat, k: nat): seq<Event> {
    if k == 0 then [] else Refused(h, k - 1) + [Unlock, Call(h), Lock]
  }

  /** Where the loop stands after `n` iterations while every reply is a refusal: walking
      to the first module with a handler, then staying there. */
  predicate Stands(ms: seq<seq<Interface>>, q: Query, l: Loop) {
    && l.result.NotYetHandled? && l.at <= |ms|
    && Selected(ms[l.at..], q) == Selected(ms, q)
    && l.trace == [Lock] + match Selected(ms, q) {
                             case Some(h) => Refused(h, l.calls)
                             case None => []
                           }
    && (0 < l.calls ==> l.at < |ms| && Handler(ms[l.at], q).Some?)
  }

  lemma IterationStands(ms: seq<seq<Interface>>, q: Query, replies: nat -> Reply, l: Loop)
    requires Running(ms, l) && Stands(ms, q, l)
    requires Handler(ms[l.at], q).Some? ==> replies(l.calls).NotYetHandled?
    ensures Stands(ms, q, Iteration(ms, q, replies, l))
    ensures Handler(ms[l.at], q).Some? ==> Selected(ms, q) == Handler(ms[l.at], q)
  {
    assert ms[l.at..][0] == ms[l.at] && ms[l.at..][1..] == ms[l.at + 1..];
  }

  lemma {:induction false} AlwaysRefused(ms: seq<seq<Interface>>, q: Query, replies: nat -> Reply, n: nat)
    requires Selected(ms, q).Some? && forall k: nat :: replies(k).NotYetHandled?
    ensures Stands(ms, q, Iterate(ms, q, replies, n)) && Running(ms, Iterate(ms, q, replies, n))
  {
    if n == 0 {
      assert ms[0..] == ms;
    } else {
      AlwaysRefused(ms, q, replies, n - 1);
      IterationStands(ms, q, replies, Iterate(ms, q, replies, n - 1));
    }
  }

  /** An upper bound on the iterations left when reply `k` is not a refusal. */
  function Left(ms: seq<seq<Interface>>, l: Loop, k: nat): int {
    (|ms| - l.at) + (k + 1 - l.calls)
  }

  lemma {:induction false} Proceeds(ms: seq<seq<Interface>>, q: Query, replies: nat -> Reply, k: nat, n: nat)
    requires Selected(ms, q).None? || !replies(k).NotYetHandled?
    ensures var l := Iterate(ms, q, replies, n);
      !Running(ms, l) || (Stands(ms, q, l) && l.calls <= k && Left(ms, l, k) <= |ms| + k + 1 - n)
  {
    if n == 0 {
      assert ms[0..] == ms;
    } else {
      Proceeds(ms, q, replies, k, n - 1);
      var l := Iterate(ms, q, replies, n - 1);
      if Running(ms, l) && !(Handler(ms[l.at], q).Some? && !replies(l.calls).NotYetHandled?) {
        IterationStands(ms, q, replies, l);
      }
    }
  }

  /** handle_method_call terminates exactly when no module has a handler for the call or
      the selected handler at some point returns something other than NOT_YET_HANDLED;
      the loop never moves on from a module whose handler refuses. */
  lemma TerminatesExactlyWhen(ms: seq<seq<Interface>>, q: Query, replies: nat -> Reply)
    ensures Terminates(ms, q, replies)
       <==> (Selected(ms, q).None? || exists k: nat :: !replies(k).NotYetHandled?)
  {
    if Selected(ms, q).None? {
      Proceeds(ms, q, replies, 0, |ms| + 2);
      assert !Running(ms, Iterate(ms, q, replies, |ms| + 2));
    } else if k: nat :| !replies(k).NotYetHandled? {
      Proceeds(ms, q, replies, k, |ms| + k + 2);
      assert !Running(ms, Iterate(ms, q, replies, |ms| + k + 2));
    } else {
      forall n: nat
        ensures Running(ms, Iterate(ms, q, replies, n))
      {
        AlwaysRefused(ms, q, replies, n);
      }
    }
  }

  /** One module whose handler always refuses is enough to keep the dispatcher busy. */
  lemma RefusalKeepsBusy(q: Query)
    ensures var m := Method(q.methodName, None, None, Some(0));
            !Terminates([[Interface(q.interfaceName, Some(q.path), [m])]], q, _ => NotYetHandled)
  {
    var m := Method(q.methodName, None, None, Some(0));
    var i := Interface(q.interfaceName, Some(q.path), [m]);
    var ms := [[i]];
    assert Entries(i, [m]) == [(i, m)];
    assert Flatten([i]) == [(i, m)] + [];
    assert Handler(ms[0], q) == Some(0);
    TerminatesExactlyWhen(ms, q, _ => NotYetHandled);
  }

  // ----- What a terminating call does -----

  function Behaviour(selected: Option<nat>, refusals: nat): seq<Event> {
    match selected
    case None => [Lock, Unlock, SendUnknownMethod]
    case Some(h) => [Lock] + Refused(h, refusals) + [Unlock, Call(h), Unlock]
  }

  function Count(trace: seq<Event>, e: Event): nat {
    multiset(trace)[e]
  }

  lemma {:induction false} RefusedCounts(h: nat, k: nat)
    ensures Count(Refused(h, k), Lock) == k && Count(Refused(h, k), Unlock) == k
    ensures Count(Refused(h, k), Call(h)) == k && Count(Refused(h, k), SendUnknownMethod) == 0
    ensures forall g :: g != h ==> Count(Refused(h, k), Call(g)) == 0
  {
    if k > 0 {
      RefusedCounts(h, k - 1);
    }
  }

  /** The mutex is given back exactly as often as it is taken when no module handles the
      call, and once too often when one does. The error goes out in the first case only. */
  lemma LocksAndErrors(selected: Option<nat>, refusals: nat)
    ensures var t := Behaviour(selected, refusals);
      && Count(t, Unlock) == Count(t, Lock) + (if selected.Some? then 1 else 0)
      && Count(t, SendUnknownMethod) == (if selected.None? then 1 else 0)
  {
    if selected.Some? { RefusedCounts(selected.value, refusals); }
  }

  /** With handlers that never return NOT_YET_HANDLED, exactly one handler call is made,
      to the selected handler, or none and the error is sent. */
  lemma OneHandlerRuns(selected: Option<nat>, g: nat)
    ensures Count(Behaviour(selected, 0), Call(g)) == if selected == Some(g) then 1 else 0
  {
    if selected.Some? { RefusedCounts(selected.value, 0); }
  }

  /** Where the loop stands after any number of iterations: every call but possibly the last
      was refused, and the calls went to the selected handler. */
  ghost predicate Reached(ms: seq<seq<Interface>>, q: Query, replies: nat -> Reply, l: Loop) {
    if l.result.NotYetHandled? then Stands(ms, q, l) && forall j :: 0 <= j < l.calls ==> replies(j).NotYetHandled?
    else
      && 0 < l.calls && Selected(ms, q).Some?
      && (forall j :: 0 <= j < l.calls - 1 ==> replies(j).NotYetHandled?) && !replies(l.calls - 1).NotYetHandled?
      && l.trace == [Lock] + Refused(Selected(ms, q).value, l.calls - 1)
                    + [Unlock, Call(Selected(ms, q).value)]
  }

  lemma IterationReaches(ms: seq<seq<Interface>>, q: Query, replies: nat -> Reply, l: Loop)
    requires Running(ms, l) && Reached(ms, q, replies, l)
    ensures Reached(ms, q, replies, Iteration(ms, q, replies, l))
  {
    if Handler(ms[l.at], q).Some? && !replies(l.calls).NotYetHandled? {
      assert ms[l.at..][0] == ms[l.at];
    } else {
      IterationStands(ms, q, replies, l);
    }
  }

  lemma {:induction false} IterateReaches(ms: seq<seq<Interface>>, q: Query, replies: nat -> Reply, n: nat)
    ensures Reached(ms, q, replies, Iterate(ms, q, replies, n))
  {
    if n == 0 {
      assert ms[0..] == ms;
    } else {
      IterateReaches(ms, q, replies, n - 1);
      var l := Iterate(ms, q, replies, n - 1);
      if Running(ms, l) { IterationReaches(ms, q, replies, l); }
    }
  }

  /** What follows the loop. */
  function Closing(l: Loop): seq<Event> {
    l.trace + [Unlock] + if l.result.NotYetHandled? then [SendUnknownMethod] else []
  }

  /** Whenever the loop has ended, the events are those of a call that nobody serves, or of
      the selected handler called up to its first reply that is not a refusal. */
  lemma EndsAs(ms: seq<seq<Interface>>, q: Query, replies: nat -> Reply, n: nat)
    requires !Running(ms, Iterate(ms, q, replies, n))
    ensures var l := Iterate(ms, q, replies, n);
            if Selected(ms, q).None? then Closing(l) == Behaviour(None, 0)
            else
              && 0 < l.calls && Closing(l) == Behaviour(Selected(ms, q), l.calls - 1)
              && !replies(l.calls - 1).NotYetHandled?
              && forall j :: 0 <= j < l.calls - 1 ==> replies(j).NotYetHandled?
  {
    IterateReaches(ms, q, replies, n);
    if Iterate(ms, q, replies, n).result.NotYetHandled? {
      assert ms[|ms|..] == [];
    }
  }

  /** The handler a module has for the call: method found, handler pointer set. */
  method FindHandler(m: ModuleNode, q: Query, ghost view: seq<Interface>) returns (h: Option<nat>)
    requires view == m.Views()
    ensures h == Handler(view, q)
  {
    var found := m.FindMethod(q);
    if found.Some? && found.value.handler.Some? {
      return Some(found.value.handler.value);
    }
    return None;
  }

  /** handle_method_call with any handlers, where `ms` names what the modules hold. The loop
      need not end, so it is followed for `turns` iterations; `ended` says whether that was
      enough. */
  method HandleMethodCall(server: Registry, q: Query, replies: nat -> Reply, turns: nat, ghost ms: seq<seq<Interface>>)
    returns (ended: bool, trace: seq<Event>)
    requires server.Valid()
    requires |ms| == |server.spine| && forall i :: 0 <= i < |ms| ==> ms[i] == server.spine[i].Views()
    ensures ended <==> !Running(ms, Iterate(ms, q, replies, turns))
    ensures trace == if ended then Closing(Iterate(ms, q, replies, turns)) else Iterate(ms, q, replies, turns).trace
  {
    var result := NotYetHandled;
    var calls := 0;
    var current := server.modules;
    ghost var i := 0;
    trace := [Lock];
    var n := 0;
    while n < turns && current != null && result == NotYetHandled
      invariant n <= turns && i <= |ms| && (if i < |ms| then current == server.spine[i] else current == null)
      invariant Loop(i, calls, result, trace) == Iterate(ms, q, replies, n)
    {
      var handler := FindHandler(current, q, ms[i]);
      if handler.Some? {
        trace := trace + [Unlock];
        result := replies(calls);
        trace := trace + [Call(handler.value)];
        calls := calls + 1;
        if result == NotYetHandled {
          trace := trace + [Lock];
        }
      } else {
        current := current.next;
        i := i + 1;
      }
      n := n + 1;
    }
    StaysEnded(ms, q, replies, n, turns);
    if current != null && result == NotYetHandled {
      return false, trace;
    }
    trace := trace + [Unlock];
    if result == NotYetHandled {
      trace := trace + [SendUnknownMethod];
    }
    return true, trace;
  }

  lemma {:induction false} StaysEnded(ms: seq<seq<Interface>>, q: Query, replies: nat -> Reply, n: nat, turns: nat)
    requires n <= turns && (n < turns ==> !Running(ms, Iterate(ms, q, replies, n)))
    ensures Iterate(ms, q, replies, turns) == Iterate(ms, q, replies, n)
  {
    if n < turns {
      StaysEnded(ms, q, replies, n, turns - 1);
    }
  }

  // ----- The buffer module -----

  const BUFFER_INTERFACE := "org.skapty6260.DesktopEngine.Buffer"
  const BUFFER_PATH := "/org/skapty6260/DesktopEngine/Buffer"
  const UPDATE_HANDLER: nat := 0
  const GET_HANDLER: nat := 1
  const SET_HANDLER: nat := 2

  /** The method in a list, if there was memory for it. */
  function IfAdded(name: string, signature: string, handler: nat, memory: Allocations): seq<Method> {
    if memory.node then [NewMethod(name, Some(signature), Some("s"), Some(handler), memory)] else []
  }

  /** create_buffer_module, with the outcomes of its allocations. A method that could not be
      added is missing without notice. */
  method CreateBufferModule(memory: bool, ifaceMemory: bool, update: Allocations, get: Allocations, set': Allocations)
    returns (m: ModuleNode?)
    ensures m != null <==> memory && ifaceMemory
    ensures m != null ==>
      && fresh(m) && m.Valid() && m.name == "Buffer_Broadcast"
      && m.Views() == [Interface(BUFFER_INTERFACE, Some(BUFFER_PATH),
                                 IfAdded("Set", "s", SET_HANDLER, set') + IfAdded("Get", "", GET_HANDLER, get)
                                 + IfAdded("Update", "s", UPDATE_HANDLER, update))]
  {
    if !memory {
      return null;
    }
    m := new ModuleNode("Buffer_Broadcast");
    var iface := ModuleNode.AddInterface(m, Some(BUFFER_INTERFACE), Some(BUFFER_PATH), ifaceMemory);
    if iface == null {
      return null;
    }
    assert m.Views()[0] == iface.View();
    var a1 := InterfaceNode.AddMethod(iface, Some("Update"), Some("s"), Some("s"), Some(UPDATE_HANDLER), update);
    var a2 := InterfaceNode.AddMethod(iface, Some("Get"), Some(""), Some("s"), Some(GET_HANDLER), get);
    var a3 := InterfaceNode.AddMethod(iface, Some("Set"), Some("s"), Some("s"), Some(SET_HANDLER), set');
    assert iface.methods == IfAdded("Set", "s", SET_HANDLER, set') + IfAdded("Get", "", GET_HANDLER, get)
                            + IfAdded("Update", "s", UPDATE_HANDLER, update);
    assert m.Views() == [iface.View()];
  }
}
