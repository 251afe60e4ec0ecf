/** Modules, their interfaces and methods: registration at the head of the lists and the
    lookup of a method (src/dbus-server/module-lib.c). */
module ModuleLib {
  import opened Options

  /** `handler` names a handler function together with its user data. */
  datatype Method = Method(name: string, signature: Option<string>, returnSignature: Option<string>,
                           handler: Option<nat>)

  datatype Interface = Interface(name: string, path: Option<string>, methods: seq<Method>)

  datatype Query = Query(interfaceName: string, methodName: string, path: string)

  predicate Serves(i: Interface, q: Query) {
    i.name == q.interfaceName && i.path == Some(q.path)
  }

  predicate Answers(e: (Interface, Method), q: Query) {
    Serves(e.0, q) && e.1.name == q.methodName
  }

  function Entries(i: Interface, ms: seq<Method>): seq<(Interface, Method)> {
    seq(|ms|, k requires 0 <= k < |ms| => (i, ms[k]))
  }

  /** Every registered method with its interface, in list order. */
  function Flatten(ifaces: seq<Interface>): seq<(Interface, Method)> {
    if ifaces == [] then []
    else Entries(ifaces[0], ifaces[0].methods) + Flatten(ifaces[1..])
  }

  function FirstMatch(es: seq<(Interface, Method)>, q: Query): Option<Method> {
    if es == [] then None
    else if Answers(es[0], q) then Some(es[0].1)
    else FirstMatch(es[1..], q)
  }

  function Lookup(ifaces: seq<Interface>, q: Query): Option<Method> {
    FirstMatch(Flatten(ifaces), q)
  }

  predicate NoneAnswers(es: seq<(Interface, Method)>, q: Query) {
    forall k :: 0 <= k < |es| ==> !Answers(es[k], q)
  }

  lemma {:induction false} FirstMatchConcat(a: seq<(Interface, Method)>, b: seq<(Interface, Method)>, q: Query)
    ensures FirstMatch(a + b, q) == if FirstMatch(a, q).Some? then FirstMatch(a, q) else FirstMatch(b, q)
    ensures FirstMatch(a, q).None? <==> NoneAnswers(a, q)
  {
    if a == [] {
      assert a + b == b;
    } else {
      assert (a + b)[1..] == a[1..] + b;
      FirstMatchConcat(a[1..], b, q);
      assert NoneAnswers(a, q) <==> !Answers(a[0], q) && NoneAnswers(a[1..], q) by {
        assert forall k :: 1 <= k < |a| ==> a[k] == a[1..][k - 1];
      }
    }
  }

  /** The lookup finds a method exactly when some entry answers, and then the first. */
  lemma {:induction false} FirstMatchIsFirst(es: seq<(Interface, Method)>, q: Query)
    ensures FirstMatch(es, q).None? <==> NoneAnswers(es, q)
    ensures FirstMatch(es, q).Some? ==>
      exists k :: 0 <= k < |es| && Answers(es[k], q) && es[k].1 == FirstMatch(es, q).value && NoneAnswers(es[..k], q)
  {
    FirstMatchConcat(es, [], q);
    assert es + [] == es;
    if FirstMatch(es, q).Some? {
      var k := 0;
      while !Answers(es[k], q)
        invariant 0 <= k < |es| && NoneAnswers(es[..k], q)
        invariant FirstMatch(es[k..], q) == FirstMatch(es, q)
        decreases |es| - k
      {
        assert es[k..][1..] == es[k + 1..];
        k := k + 1;
      }
      assert es[k..][0] == es[k];
    }
  }

  lemma {:induction false} FlattenConcat(a: seq<Interface>, b: seq<Interface>)
    ensures Flatten(a + b) == Flatten(a) + Flatten(b)
  {
    if a == [] {
      assert a + b == b;
    } else {
      assert (a + b)[1..] == a[1..] + b;
      FlattenConcat(a[1..], b);
      assert Flatten(a + b) == Entries(a[0], a[0].methods) + (Flatten(a[1..]) + Flatten(b));
    }
  }

  // ----- What a registration changes -----

  function WithMethod(ifaces: seq<Interface>, i: nat, m: Method): seq<Interface>
    requires i < |ifaces|
  {
    ifaces[i := ifaces[i].(methods := [m] + ifaces[i].methods)]
  }

  lemma EntriesMatch(i: Interface, j: Interface, ms: seq<Method>, q: Query)
    requires Serves(i, q) <==> Serves(j, q)
    ensures FirstMatch(Entries(i, ms), q) == FirstMatch(Entries(j, ms), q)
    decreases |ms|
  {
    if ms != [] {
      assert Entries(i, ms)[1..] == Entries(i, ms[1..]);
      assert Entries(j, ms)[1..] == Entries(j, ms[1..]);
      EntriesMatch(i, j, ms[1..], q);
    }
  }

  /** The lookup with interface `i` taken apart from the interfaces before and after. */
  lemma LookupSplit(ifaces: seq<Interface>, i: nat, q: Query)
    requires i < |ifaces|
    ensures Lookup(ifaces, q) ==
      if Lookup(ifaces[..i], q).Some? then Lookup(ifaces[..i], q)
      else if FirstMatch(Entries(ifaces[i], ifaces[i].methods), q).Some?
      then FirstMatch(Entries(ifaces[i], ifaces[i].methods), q)
      else Lookup(ifaces[i + 1..], q)
  {
    var x := Entries(ifaces[i], ifaces[i].methods);
    assert ifaces == ifaces[..i] + ifaces[i..];
    FlattenConcat(ifaces[..i], ifaces[i..]);
    assert ifaces[i..][1..] == ifaces[i + 1..] && ifaces[i..][0] == ifaces[i];
    FirstMatchConcat(Flatten(ifaces[..i]), Flatten(ifaces[i..]), q);
    FirstMatchConcat(x, Flatten(ifaces[i + 1..]), q);
  }

  /** Registering a method changes only the lookups it answers; those now yield it, unless
      an interface earlier in the list already answered them. */
  lemma AddMethodShadows(ifaces: seq<Interface>, i: nat, m: Method, q: Query)
    requires i < |ifaces|
    ensures Lookup(WithMethod(ifaces, i, m), q) ==
      if Answers((ifaces[i], m), q) && Lookup(ifaces[..i], q).None? then Some(m) else Lookup(ifaces, q)
  {
    var old' := ifaces[i];
    var new' := WithMethod(ifaces, i, m)[i];
    LookupSplit(ifaces, i, q);
    LookupSplit(WithMethod(ifaces, i, m), i, q);
    assert WithMethod(ifaces, i, m)[..i] == ifaces[..i];
    assert WithMethod(ifaces, i, m)[i + 1..] == ifaces[i + 1..];
    assert Entries(new', new'.methods) == [(new', m)] + Entries(new', old'.methods);
    EntriesMatch(new', old', old'.methods, q);
  }

  /** A freshly added interface has no methods and changes no lookup. */
  lemma AddInterfaceIsInert(ifaces: seq<Interface>, i: Interface, q: Query)
    requires i.methods == []
    ensures Lookup([i] + ifaces, q) == Lookup(ifaces, q)
  {
    assert ([i] + ifaces)[1..] == ifaces;
    assert Entries(i, []) == [];
    assert Flatten([i] + ifaces) == Flatten(ifaces);
  }

  // ----- What a lookup finds, on the lists themselves -----

  /** The k-th method of the i-th interface is one the query asks for. */
  predicate MatchesAt(ifaces: seq<Interface>, q: Query, i: nat, k: nat) {
    && i < |ifaces| && k < |ifaces[i].methods|
    && ifaces[i].name == q.interfaceName && ifaces[i].path.Some? && ifaces[i].path.value == q.path
    && ifaces[i].methods[k].name == q.methodName
  }

  /** It is the first one. */
  predicate FirstAt(ifaces: seq<Interface>, q: Query, i: nat, k: nat) {
    && MatchesAt(ifaces, q, i, k)
    && (forall j: nat, l: nat :: j < i && j < |ifaces| && l < |ifaces[j].methods| ==> !MatchesAt(ifaces, q, j, l))
    && (forall l: nat :: l < k ==> !MatchesAt(ifaces, q, i, l))
  }

  lemma {:induction false} EntriesFirst(i: Interface, ms: seq<Method>, q: Query) returns (k: nat)
    ensures k <= |ms| && forall l :: 0 <= l < k ==> !Answers((i, ms[l]), q)
    ensures k < |ms| ==> Answers((i, ms[k]), q)
    ensures FirstMatch(Entries(i, ms), q) == if k < |ms| then Some(ms[k]) else None
    decreases |ms|
  {
    if ms == [] || Answers((i, ms[0]), q) {
      return 0;
    }
    assert Entries(i, ms)[1..] == Entries(i, ms[1..]);
    k := EntriesFirst(i, ms[1..], q);
    k := k + 1;
    assert forall l :: 1 <= l < k ==> ms[l] == ms[1..][l - 1];
  }

  lemma FirstAtLater(ifaces: seq<Interface>, q: Query, i: nat, k: nat)
    requires ifaces != [] && FirstAt(ifaces[1..], q, i, k)
    requires forall l: nat :: l < |ifaces[0].methods| ==> !MatchesAt(ifaces, q, 0, l)
    ensures FirstAt(ifaces, q, i + 1, k) && ifaces[i + 1] == ifaces[1..][i]
  {
    forall j: nat, l: nat | 0 < j
      ensures MatchesAt(ifaces, q, j, l) <==> MatchesAt(ifaces[1..], q, j - 1, l)
    {
    }
  }

  /** Where the method found stands; or no method of any interface is asked for. */
  lemma {:induction false} LookupAt(ifaces: seq<Interface>, q: Query) returns (i: nat, k: nat)
    ensures Lookup(ifaces, q).None? ==> forall j: nat, l: nat :: !MatchesAt(ifaces, q, j, l)
    ensures Lookup(ifaces, q).Some? ==>
      FirstAt(ifaces, q, i, k) && Lookup(ifaces, q) == Some(ifaces[i].methods[k])
  {
    i, k := 0, 0;
    if ifaces == [] {
      return;
    }
    LookupSplit(ifaces, 0, q);
    assert ifaces[..0] == [] && Lookup([], q).None?;
    k := EntriesFirst(ifaces[0], ifaces[0].methods, q);
    assert forall l: nat :: l < |ifaces[0].methods| ==>
      (MatchesAt(ifaces, q, 0, l) <==> Answers((ifaces[0], ifaces[0].methods[l]), q));
    if k == |ifaces[0].methods| {
      i, k := LookupAt(ifaces[1..], q);
      if Lookup(ifaces, q).Some? {
        FirstAtLater(ifaces, q, i, k);
      } else {
        assert forall j: nat, l: nat :: 0 < j ==> (MatchesAt(ifaces, q, j, l) ==> MatchesAt(ifaces[1..], q, j - 1, l));
      }
      i := i + 1;
    }
  }

  lemma FirstAtOnce(ifaces: seq<Interface>, q: Query, i: nat, k: nat, j: nat, l: nat)
    requires FirstAt(ifaces, q, i, k) && FirstAt(ifaces, q, j, l)
    ensures i == j && k == l
  {
  }

  /** A lookup yields a method exactly when it is the first, in the order of the lists, of
      that name in an interface of that name and path. */
  lemma LookupExactly(ifaces: seq<Interface>, q: Query, m: Method)
    ensures Lookup(ifaces, q) == Some(m) <==>
      exists i: nat, k: nat :: FirstAt(ifaces, q, i, k) && ifaces[i].methods[k] == m
  {
    var i, k := LookupAt(ifaces, q);
    if j: nat, l: nat :| FirstAt(ifaces, q, j, l) && ifaces[j].methods[l] == m {
      FirstAtOnce(ifaces, q, i, k, j, l);
    }
  }

  // ----- The objects -----

  /** Outcomes of the allocations of interface_add_method: the method with its name, and the
      copies of the two signatures. */
  datatype Allocations = Allocations(node: bool, signature: bool, returnSignature: bool)

  const Plenty := Allocations(true, true, true)

  /** What strdup leaves of a string. */
  function Copied(s: Option<string>, memory: bool): Option<string> {
    if memory then s else None
  }

  function NewMethod(name: string, signature: Option<string>, returnSignature: Option<string>,
                     handler: Option<nat>, memory: Allocations): Method
  {
    Method(name, Copied(signature, memory.signature), Copied(returnSignature, memory.returnSignature), handler)
  }

  class InterfaceNode {
    const name: string
    const path: Option<string>
    var methods: seq<Method>

    function View(): Interface
      reads this
    {
      Interface(name, path, methods)
    }

    constructor (name: string, path: string)
      ensures View() == Interface(name, Some(path), [])
    {
      this.name, this.path := name, Some(path);
      methods := [];
    }

    /** interface_add_method: the new method becomes the head of the list; without an
        interface, a name or memory nothing happens. */
    static method AddMethod(iface: InterfaceNode?, methodName: Option<string>, signature: Option<string>,
                            returnSignature: Option<string>, handler: Option<nat>, memory: Allocations)
      returns (added: Option<Method>)
      modifies if iface == null then {} else {iface}
      ensures added == if iface != null && methodName.Some? && memory.node
                       then Some(NewMethod(methodName.value, signature, returnSignature, handler, memory)) else None
      ensures iface != null ==>
        iface.methods == (if added.Some? then [added.value] else []) + old(iface.methods)
      ensures added.Some? ==>
        && added.value.name == methodName.value && added.value.handler == handler
        && added.value.signature == (if memory.signature then signature else None)
        && added.value.returnSignature == (if memory.returnSignature then returnSignature else None)
    {
      if iface == null || methodName.None? {
        return None;
      }
      if !memory.node {
        return None;
      }
      var m := NewMethod(methodName.value, signature, returnSignature, handler, memory);
      iface.methods := [m] + iface.methods;
      return Some(m);
    }
  }

  class ModuleNode {
    const name: string
    var interfaces: seq<InterfaceNode>
    var next: ModuleNode?

    ghost predicate Valid()
      reads this
    {
      forall i, j :: 0 <= i < j < |interfaces| ==> interfaces[i] != interfaces[j]
    }

    function Views(): seq<Interface>
      reads this, interfaces
    {
      seq(|interfaces|, i requires 0 <= i < |interfaces| reads this, interfaces => interfaces[i].View())
    }

    constructor (name: string)
      ensures this.name == name && interfaces == [] && next == null && Valid()
    {
      this.name := name;
      interfaces := [];
      next := null;
    }

    /** module_add_interface: the new interface becomes the head of the list; without a
        module, a name, a path or memory nothing happens. */
    static method AddInterface(m: ModuleNode?, interfaceName: Option<string>, path: Option<string>, memory: bool)
      returns (node: InterfaceNode?)
      requires m != null ==> m.Valid()
      modifies if m == null then {} else {m}`interfaces
      ensures m != null ==> m.Valid()
      ensures node != null <==> m != null && interfaceName.Some? && path.Some? && memory
      ensures node != null ==>
        && fresh(node) && m.interfaces == [node] + old(m.interfaces)
        && m.Views() == [Interface(interfaceName.value, path, [])] + old(m.Views())
      ensures node == null && m != null ==> m.interfaces == old(m.interfaces)
    {
      if m == null || interfaceName.None? || path.None? {
        return null;
      }
      if !memory {
        return null;
      }
      node := new InterfaceNode(interfaceName.value, path.value);
      m.interfaces := [node] + m.interfaces;
    }

    /** Registering a method with the i-th interface, seen from the module. */
    method AddMethodTo(i: nat, m: Method)
      requires Valid() && i < |interfaces|
      modifies interfaces[i]
      ensures Valid() && interfaces == old(interfaces)
      ensures Views() == WithMethod(old(Views()), i, m)
    {
      var added := InterfaceNode.AddMethod(interfaces[i], Some(m.name), m.signature, m.returnSignature, m.handler, Plenty);
    }

    /** module_find_method: the nested search over interfaces and methods. */
    method FindMethod(q: Query) returns (found: Option<Method>)
      ensures found == Lookup(Views(), q)
    {
      ghost var views := Views();
      var n := 0;
      while n < |interfaces|
        invariant n <= |interfaces|
        invariant Lookup(views, q) == Lookup(views[n..], q)
      {
        var iface := interfaces[n];
        LookupSplit(views[n..], 0, q);
        assert views[n..][1..] == views[n + 1..] && views[n] == iface.View();
        if iface.name == q.interfaceName && iface.path == Some(q.path) {
          var k := 0;
          while k < |iface.methods|
            invariant k <= |iface.methods|
            invariant FirstMatch(Entries(iface.View(), iface.methods), q)
                   == FirstMatch(Entries(iface.View(), iface.methods[k..]), q)
          {
            var m := iface.methods[k];
            ghost var rest := Entries(iface.View(), iface.methods[k..]);
            assert rest[1..] == Entries(iface.View(), iface.methods[k + 1..]);
            if m.name == q.methodName {
              return Some(m);
            }
            k := k + 1;
          }
        } else {
          FirstMatchIsFirst(Entries(iface.View(), iface.methods), q);
        }
        n := n + 1;
      }
      return None;
    }
  }
}
