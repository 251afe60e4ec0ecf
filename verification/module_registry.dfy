/** The server's list of modules: a singly linked list with a tail pointer
    (src/dbus-server/server.c). */
module ModuleRegistry {
  import opened ModuleLib

  function IndexNamed(list: seq<ModuleNode>, name: string): (i: nat)
    ensures i <= |list|
    ensures i < |list| ==> list[i].name == name
    ensures forall j :: 0 <= j < i ==> list[j].name != name
  {
    if list == [] || list[0].name == name then 0 else 1 + IndexNamed(list[1..], name)
  }

  function IndexOf(list: seq<ModuleNode>, m: ModuleNode): (i: nat)
    ensures i <= |list|
    ensures i < |list| ==> list[i] == m
    ensures forall j :: 0 <= j < i ==> list[j] != m
  {
    if list == [] || list[0] == m then 0 else 1 + IndexOf(list[1..], m)
  }

  predicate Has(list: seq<ModuleNode>, name: string) {
    IndexNamed(list, name) < |list|
  }

  function DropAt(list: seq<ModuleNode>, i: nat): seq<ModuleNode>
    requires i < |list|
  {
    list[..i] + list[i + 1..]
  }

  /** The list without its first module of that name. */
  function Removed(list: seq<ModuleNode>, name: string): seq<ModuleNode> {
    var i := IndexNamed(list, name);
    if i < |list| then DropAt(list, i) else list
  }

  predicate Distinct(list: seq<ModuleNode>) {
    forall i, j :: 0 <= i < j < |list| ==> list[i] != list[j]
  }

  class Registry {
    var modules: ModuleNode?
    var tail: ModuleNode?
    ghost var spine: seq<ModuleNode>      // the list, in order
    ghost var destroyed: seq<ModuleNode>  // modules given to module_destroy, in order

    /** The pointers spell out the spine: acyclic, ending in null, and the tail is its
        last node exactly when there is one. */
    ghost predicate Valid()
      reads this, spine
    {
      && Distinct(spine)
      && (if spine == [] then modules == null && tail == null
          else modules == spine[0] && tail == spine[|spine| - 1] && tail.next == null)
      && (forall i :: 0 <= i < |spine| - 1 ==> spine[i].next == spine[i + 1])
    }

    ghost function Snapshot(): Log
      reads this
    {
      Log(spine, destroyed)
    }

    constructor ()
      ensures Valid() && Snapshot() == Log([], [])
    {
      modules, tail := null, null;
      spine, destroyed := [], [];
    }

    /** dbus_server_add_module. A new module is appended. One that is in the list already
        cuts off the modules behind it; the last one is tied into a ring, and that is the
        only way to break the list. */
    method Add(m: ModuleNode)
      requires Valid()
      modifies this`modules, this`tail, this`spine, m`next, spine`next
      ensures var was := old(Snapshot());
              var i := IndexOf(was.list, m);
              && (Valid() <==> i + 1 != |was.list|)
              && (i == |was.list| ==> Snapshot() == Apply(was, AddOp(m)))
              && (i + 1 < |was.list| ==> Snapshot() == Log(was.list[..i + 1], was.destroyed))
              && (i + 1 == |was.list| ==> Snapshot() == was && m.next == m)
    {
      ghost var i := IndexOf(spine, m);
      m.next := null;
      if modules == null {
        modules := m;
        tail := m;
      } else {
        tail.next := m;
        tail := m;
      }
      if i == |spine| {
        spine := spine + [m];
      } else if i + 1 < |spine| {
        spine := spine[..i + 1];
      }
    }

    /** dbus_server_find_module. */
    method Find(name: string) returns (found: ModuleNode?)
      requires Valid()
      ensures found == if Has(spine, name) then spine[IndexNamed(spine, name)] else null
    {
      var current := modules;
      ghost var i := 0;
      while current != null
        invariant i <= |spine| && (if i < |spine| then current == spine[i] else current == null)
        invariant forall j :: 0 <= j < i ==> spine[j].name != name
        decreases |spine| - i
      {
        if current.name == name {
          return current;
        }
        current := current.next;
        i := i + 1;
      }
      return null;
    }

    /** Takes the i-th node out of the list. */
    method Unlink(prev: ModuleNode?, current: ModuleNode, ghost i: nat)
      requires Valid() && i < |spine| && current == spine[i]
      requires if i == 0 then prev == null else prev == spine[i - 1]
      modifies this`modules, this`tail, this`spine, spine`next
      ensures Valid() && spine == DropAt(old(spine), i)
    {
      ghost var was := spine;
      if prev != null {
        prev.next := current.next;
      } else {
        modules := current.next;
      }
      if current == tail {
        tail := prev;
      }
      spine := DropAt(was, i);
      assert forall j :: 0 <= j < |spine| ==> spine[j] == was[if j < i then j else j + 1];
    }

    /** dbus_server_remove_module: unlinks and destroys the first module of that name. */
    method Remove(name: string)
      requires Valid()
      modifies this, spine`next
      ensures Valid()
      ensures Snapshot() == Apply(old(Snapshot()), RemoveOp(name))
      ensures var i := IndexNamed(old(spine), name);
              if i < |old(spine)|
              then spine == old(spine)[..i] + old(spine)[i + 1..] && destroyed == old(destroyed) + [old(spine)[i]]
              else spine == old(spine) && destroyed == old(destroyed)
    {
      var current := modules;
      var prev: ModuleNode? := null;
      ghost var i := 0;
      while current != null
        invariant i <= |spine| && (if i < |spine| then current == spine[i] else current == null)
        invariant if i == 0 then prev == null else prev == spine[i - 1]
        invariant forall j :: 0 <= j < i ==> spine[j].name != name
        decreases |spine| - i
        modifies {}
      {
        if current.name == name {
          break;
        }
        prev := current;
        current := current.next;
        i := i + 1;
      }
      if current != null {
        assert i == IndexNamed(spine, name);
        Unlink(prev, current, i);
        destroyed := destroyed + [current];
      }
    }

    /** dbus_server_remove_all_modules: destroys every module, first to last. */
    method RemoveAll()
      requires Valid()
      modifies this
      ensures Valid()
      ensures Snapshot() == Apply(old(Snapshot()), RemoveAllOp)
      ensures modules == null && spine == [] && destroyed == old(destroyed) + old(spine)
    {
      var current := modules;
      ghost var i := 0;
      while current != null
        invariant i <= |spine| && (if i < |spine| then current == spine[i] else current == null)
        invariant Valid() && spine == old(spine) && destroyed == old(destroyed) + spine[..i]
        decreases |spine| - i
      {
        var next := current.next;
        destroyed := destroyed + [current];
        current := next;
        i := i + 1;
      }
      assert spine[..i] == spine;
      modules := null;
      tail := null;
      spine := [];
    }
  }

  // ----- Runs of list operations -----

  datatype Op = AddOp(m: ModuleNode) | FindOp(name: string) | RemoveOp(name: string) | RemoveAllOp

  datatype Log = Log(list: seq<ModuleNode>, destroyed: seq<ModuleNode>)

  /** What the methods above do to the list and to the modules destroyed. */
  function Apply(s: Log, op: Op): Log {
    match op
    case AddOp(m) => s.(list := s.list + [m])
    case FindOp(_) => s
    case RemoveOp(name) =>
      if Has(s.list, name)
      then Log(Removed(s.list, name), s.destroyed + [s.list[IndexNamed(s.list, name)]])
      else s
    case RemoveAllOp => Log([], s.destroyed + s.list)
  }

  function ApplyAll(s: Log, ops: seq<Op>): Log
    decreases |ops|
  {
    if ops == [] then s else ApplyAll(Apply(s, ops[0]), ops[1..])
  }

  /** The module an operation brings, if it brings one. */
  function Joined(op: Op): seq<ModuleNode> {
    if op.AddOp? then [op.m] else []
  }

  function Added(ops: seq<Op>): seq<ModuleNode> {
    if ops == [] then [] else Joined(ops[0]) + Added(ops[1..])
  }

  /** The modules of `all` that are not in `gone`, in their order. */
  function Rest(all: seq<ModuleNode>, gone: seq<ModuleNode>): seq<ModuleNode> {
    if all == [] then []
    else if all[0] in gone then Rest(all[1..], gone)
    else [all[0]] + Rest(all[1..], gone)
  }

  lemma {:induction false} RestAppend(all: seq<ModuleNode>, gone: seq<ModuleNode>, m: ModuleNode)
    ensures Rest(all + [m], gone) == Rest(all, gone) + if m in gone then [] else [m]
  {
    if all == [] {
      assert all + [m] == [m];
    } else {
      assert (all + [m])[1..] == all[1..] + [m];
      RestAppend(all[1..], gone, m);
    }
  }

  lemma {:induction false} RestMembers(all: seq<ModuleNode>, gone: seq<ModuleNode>)
    ensures forall i :: 0 <= i < |Rest(all, gone)| ==> Rest(all, gone)[i] in all && Rest(all, gone)[i] !in gone
    ensures forall i :: 0 <= i < |all| ==> all[i] in gone || all[i] in Rest(all, gone)
    ensures Distinct(all) ==> Distinct(Rest(all, gone))
  {
    if all != [] {
      var tail := Rest(all[1..], gone);
      RestMembers(all[1..], gone);
      assert forall j :: 1 <= j < |all| ==> all[j] == all[1..][j - 1];
      assert forall i :: 0 <= i < |tail| ==> tail[i] in all[1..];
    }
  }

  /** Distinctness told head first. */
  predicate NoRepeats(all: seq<ModuleNode>) {
    all == [] || (all[0] !in all[1..] && NoRepeats(all[1..]))
  }

  lemma {:induction false} DistinctHasNoRepeats(all: seq<ModuleNode>)
    requires Distinct(all)
    ensures NoRepeats(all)
  {
    if all != [] {
      assert forall j :: 1 <= j < |all| ==> all[j] == all[1..][j - 1];
      DistinctHasNoRepeats(all[1..]);
    }
  }

  lemma {:induction false} RestNotIn(all: seq<ModuleNode>, gone: seq<ModuleNode>, x: ModuleNode)
    requires x !in all
    ensures x !in Rest(all, gone)
  {
    if all != [] { RestNotIn(all[1..], gone, x); }
  }

  lemma DropLater(head: ModuleNode, tail: seq<ModuleNode>, i: nat)
    requires i < |tail|
    ensures DropAt([head] + tail, i + 1) == [head] + DropAt(tail, i)
  {
  }

  /** The first module stays when one further on goes. */
  lemma RestDropLater(all: seq<ModuleNode>, gone: seq<ModuleNode>, more: seq<ModuleNode>,
                      tail: seq<ModuleNode>, i: nat)
    requires all != [] && all[0] !in gone && all[0] !in more
    requires tail == Rest(all[1..], gone) && i < |tail| && Rest(all[1..], more) == DropAt(tail, i)
    ensures Rest(all, more) == DropAt(Rest(all, gone), i + 1)
  {
    DropLater(all[0], tail, i);
  }

  lemma RestDropFirst(all: seq<ModuleNode>, gone: seq<ModuleNode>, tail: seq<ModuleNode>)
    requires all != [] && all[0] !in gone && all[0] !in all[1..] && tail == Rest(all[1..], gone)
    ensures Rest(all, gone + [all[0]]) == tail == DropAt(Rest(all, gone), 0)
  {
    RestUnchanged(all[1..], gone, all[0]);
    assert DropAt([all[0]] + tail, 0) == tail;
  }

  lemma NotGone(head: ModuleNode, tail: seq<ModuleNode>, gone: seq<ModuleNode>, i: nat)
    requires head !in gone && head !in tail && i < |tail|
    ensures head !in gone + [tail[i]]
  {
  }

  lemma RestHead(all: seq<ModuleNode>, gone: seq<ModuleNode>, i: nat)
    requires all != [] && i < |Rest(all, gone)|
    ensures var tail := Rest(all[1..], gone);
      if all[0] in gone then i < |tail| && Rest(all, gone)[i] == tail[i]
      else if i == 0 then Rest(all, gone)[i] == all[0]
      else i - 1 < |tail| && Rest(all, gone)[i] == tail[i - 1]
  {
  }

  /** One more module gone: it drops out of the rest and nothing else moves. */
  lemma {:induction false} RestDrop(all: seq<ModuleNode>, gone: seq<ModuleNode>, i: nat, x: ModuleNode,
                                    more: seq<ModuleNode>)
    requires NoRepeats(all) && i < |Rest(all, gone)| && x == Rest(all, gone)[i] && more == gone + [x]
    ensures Rest(all, more) == DropAt(Rest(all, gone), i)
  {
    var tail := Rest(all[1..], gone);
    RestHead(all, gone, i);
    RestNotIn(all[1..], gone, all[0]);
    if all[0] in gone {
      RestDrop(all[1..], gone, i, x, more);
      assert all[0] in more;
    } else if i == 0 {
      RestDropFirst(all, gone, tail);
    } else {
      NotGone(all[0], tail, gone, i - 1);
      RestDrop(all[1..], gone, i - 1, x, more);
      RestDropLater(all, gone, more, tail, i - 1);
    }
  }

  lemma {:induction false} RestUnchanged(all: seq<ModuleNode>, gone: seq<ModuleNode>, x: ModuleNode)
    requires x !in all
    ensures Rest(all, gone + [x]) == Rest(all, gone)
  {
    if all != [] {
      RestUnchanged(all[1..], gone, x);
    }
  }

  lemma {:induction false} RestAllGone(all: seq<ModuleNode>, gone: seq<ModuleNode>)
    requires forall i :: 0 <= i < |all| ==> all[i] in gone
    ensures Rest(all, gone) == []
  {
    if all != [] {
      RestAllGone(all[1..], gone);
    }
  }

  ghost predicate LogOk(s: Log, added: seq<ModuleNode>) {
    && Distinct(added)
    && s.list == Rest(added, s.destroyed)
    && multiset(added) == multiset(s.list) + multiset(s.destroyed)
  }

  lemma NeverAdded(list: seq<ModuleNode>, destroyed: seq<ModuleNode>, added: seq<ModuleNode>, m: ModuleNode)
    requires multiset(added) == multiset(list) + multiset(destroyed) && m !in added
    ensures m !in destroyed
  {
    assert multiset(added)[m] == 0;
    assert m !in multiset(destroyed);
  }

  lemma MultisetSnoc(s: seq<ModuleNode>, m: ModuleNode)
    ensures multiset(s + [m]) == multiset(s) + multiset{m}
  {
  }

  lemma DistinctSnoc(s: seq<ModuleNode>, m: ModuleNode)
    requires Distinct(s) && m !in s
    ensures Distinct(s + [m])
  {
  }

  lemma AddKeeps(s: Log, m: ModuleNode, added: seq<ModuleNode>)
    requires LogOk(s, added) && m !in added
    ensures LogOk(Apply(s, AddOp(m)), added + [m])
  {
    NeverAdded(s.list, s.destroyed, added, m);
    RestAppend(added, s.destroyed, m);
    DistinctSnoc(added, m);
    MultisetSnoc(added, m);
    MultisetSnoc(s.list, m);
  }

  lemma TakeOut(list: seq<ModuleNode>, i: nat)
    requires i < |list|
    ensures multiset(list) == multiset(DropAt(list, i)) + multiset{list[i]}
  {
    assert list == list[..i] + [list[i]] + list[i + 1..];
  }

  lemma RemoveKeeps(s: Log, name: string, added: seq<ModuleNode>)
    requires LogOk(s, added)
    ensures LogOk(Apply(s, RemoveOp(name)), added)
  {
    if Has(s.list, name) {
      var i := IndexNamed(s.list, name);
      DistinctHasNoRepeats(added);
      RestDrop(added, s.destroyed, i, s.list[i], s.destroyed + [s.list[i]]);
      TakeOut(s.list, i);
      var t := Apply(s, RemoveOp(name));
      assert t.list == DropAt(s.list, i) && t.destroyed == s.destroyed + [s.list[i]];
    }
  }

  lemma RemoveAllKeeps(s: Log, added: seq<ModuleNode>)
    requires LogOk(s, added)
    ensures LogOk(Apply(s, RemoveAllOp), added)
  {
    RestMembers(added, s.destroyed);
    RestAllGone(added, s.destroyed + s.list);
  }

  lemma ApplyKeeps(s: Log, op: Op, added: seq<ModuleNode>)
    requires LogOk(s, added) && (op.AddOp? ==> op.m !in added)
    ensures LogOk(Apply(s, op), added + Added([op]))
  {
    assert [op][1..] == [];
    assert Added([op]) == if op.AddOp? then [op.m] else [];
    assert !op.AddOp? ==> added + Added([op]) == added;
    match op
    case AddOp(m) => AddKeeps(s, m, added);
    case FindOp(_) =>
    case RemoveOp(name) => RemoveKeeps(s, name, added);
    case RemoveAllOp => RemoveAllKeeps(s, added);
  }

  lemma {:induction false} ApplyAllKeeps(s: Log, ops: seq<Op>, added: seq<ModuleNode>)
    requires LogOk(s, added) && Distinct(added + Added(ops))
    ensures LogOk(ApplyAll(s, ops), added + Added(ops))
    decreases |ops|
  {
    if ops == [] {
      assert added + Added(ops) == added;
    } else {
      var now := added + Added([ops[0]]);
      assert [ops[0]][1..] == [];
      assert Added(ops) == Added([ops[0]]) + Added(ops[1..]);
      assert added + Added(ops) == now + Added(ops[1..]);
      if ops[0].AddOp? {
        var all := added + Added(ops);
        assert all[|added|] == ops[0].m;
        assert forall i :: 0 <= i < |added| ==> added[i] == all[i];
      }
      ApplyKeeps(s, ops[0], added);
      ApplyAllKeeps(Apply(s, ops[0]), ops[1..], now);
    }
  }

  /** Over any run that adds each module once, the list holds exactly the modules added
      and not destroyed, in the order they were added, and each module is in the list or
      destroyed, once. */
  lemma RunsConserveModules(ops: seq<Op>)
    requires Distinct(Added(ops))
    ensures var s := ApplyAll(Log([], []), ops);
            && s.list == Rest(Added(ops), s.destroyed)
            && Distinct(s.list)
            && multiset(Added(ops)) == multiset(s.list) + multiset(s.destroyed)
  {
    assert [] + Added(ops) == Added(ops);
    ApplyAllKeeps(Log([], []), ops, []);
    RestMembers(Added(ops), ApplyAll(Log([], []), ops).destroyed);
  }

  // ----- The modules of one name -----

  /** The modules of that name, in order. */
  function OfName(list: seq<ModuleNode>, name: string): seq<ModuleNode> {
    if list == [] then []
    else (if list[0].name == name then [list[0]] else []) + OfName(list[1..], name)
  }

  /** What an operation should do to the modules of one name: they are a queue, to which an
      addition appends, from which a removal takes the first, and which removing all empties. */
  function QueueAfter(q: seq<ModuleNode>, op: Op, name: string): seq<ModuleNode> {
    match op
    case AddOp(m) => if m.name == name then q + [m] else q
    case FindOp(_) => q
    case RemoveOp(n) => if n == name && q != [] then q[1..] else q
    case RemoveAllOp => []
  }

  function Queue(q: seq<ModuleNode>, ops: seq<Op>, name: string): seq<ModuleNode>
    decreases |ops|
  {
    if ops == [] then q else Queue(QueueAfter(q, ops[0], name), ops[1..], name)
  }

  lemma Grouped<T>(a: seq<T>, b: seq<T>, c: seq<T>)
    ensures (a + b) + c == a + (b + c)
  {
  }

  lemma TailConcat<T>(a: seq<T>, b: seq<T>)
    requires a != []
    ensures a + b != [] && (a + b)[0] == a[0] && (a + b)[1..] == a[1..] + b
  {
  }

  lemma {:induction false} OfNameConcat(a: seq<ModuleNode>, b: seq<ModuleNode>, name: string)
    ensures OfName(a + b, name) == OfName(a, name) + OfName(b, name)
  {
    if a == [] {
      assert a + b == b;
    } else {
      TailConcat(a, b);
      OfNameConcat(a[1..], b, name);
      Grouped(if a[0].name == name then [a[0]] else [], OfName(a[1..], name), OfName(b, name));
    }
  }

  lemma OfNameOne(m: ModuleNode, name: string)
    ensures OfName([m], name) == if m.name == name then [m] else []
  {
  }

  lemma {:induction false} NoneOfName(list: seq<ModuleNode>, name: string)
    requires forall j :: 0 <= j < |list| ==> list[j].name != name
    ensures OfName(list, name) == []
  {
    if list != [] { NoneOfName(list[1..], name); }
  }

  /** A module in the middle: what it and its neighbours are of each name. */
  lemma OfNameAround(before: seq<ModuleNode>, x: ModuleNode, after: seq<ModuleNode>, name: string)
    ensures OfName(before + ([x] + after), name)
         == OfName(before, name) + (OfName([x], name) + OfName(after, name))
    ensures OfName(before + after, name) == OfName(before, name) + OfName(after, name)
  {
    OfNameConcat(before, [x] + after, name);
    OfNameConcat([x], after, name);
    OfNameConcat(before, after, name);
  }

  /** Removing the first module of some name: what goes, and what is left, of each name. */
  lemma RemovedOfName(list: seq<ModuleNode>, k: string, name: string)
    ensures !Has(list, k) ==> OfName(list, k) == []
    ensures Has(list, k) ==>
      var x := list[IndexNamed(list, k)];
      x.name == k && OfName(list, name) == OfName([x], name) + OfName(Removed(list, k), name)
  {
    var i := IndexNamed(list, k);
    if i < |list| {
      var before, x, after := list[..i], list[i], list[i + 1..];
      assert list == before + ([x] + after);
      NoneOfName(before, k);
      OfNameOne(x, name);
      OfNameAround(before, x, after, name);
    } else {
      NoneOfName(list, k);
    }
  }

  /** One operation on the modules of one name. */
  lemma StepOfName(s: Log, op: Op, name: string)
    ensures OfName(Apply(s, op).list, name) == QueueAfter(OfName(s.list, name), op, name)
    ensures OfName(Apply(s, op).destroyed, name) + OfName(Apply(s, op).list, name)
         == OfName(s.destroyed, name) + (OfName(s.list, name) + OfName(Joined(op), name))
  {
    var d, l := OfName(s.destroyed, name), OfName(s.list, name);
    match op
    case AddOp(m) =>
      OfNameConcat(s.list, [m], name);
      OfNameOne(m, name);
    case FindOp(_) =>
      assert l + [] == l;
    case RemoveOp(k) =>
      assert l + [] == l;
      RemovedOfName(s.list, k, name);
      if Has(s.list, k) {
        var x := s.list[IndexNamed(s.list, k)];
        OfNameOne(x, name);
        OfNameConcat(s.destroyed, [x], name);
        Grouped(d, OfName([x], name), OfName(Removed(s.list, k), name));
      }
    case RemoveAllOp =>
      assert l + [] == l;
      OfNameConcat(s.destroyed, s.list, name);
      assert (d + l) + [] == d + l;
  }

  lemma {:induction false} RunOfName(s: Log, ops: seq<Op>, name: string)
    ensures var t := ApplyAll(s, ops);
            && OfName(t.list, name) == Queue(OfName(s.list, name), ops, name)
            && OfName(t.destroyed, name) + OfName(t.list, name)
               == OfName(s.destroyed, name) + (OfName(s.list, name) + OfName(Added(ops), name))
    decreases |ops|
  {
    if ops == [] {
      assert OfName(s.list, name) + [] == OfName(s.list, name);
    } else {
      StepOfName(s, ops[0], name);
      RunOfName(Apply(s, ops[0]), ops[1..], name);
      OfNameConcat(Joined(ops[0]), Added(ops[1..]), name);
      Moved(OfName(Apply(s, ops[0]).destroyed, name), OfName(Apply(s, ops[0]).list, name), OfName(s.destroyed, name),
            OfName(s.list, name), OfName(Joined(ops[0]), name), OfName(Added(ops[1..]), name));
    }
  }

  lemma Moved<T>(d': seq<T>, l': seq<T>, d: seq<T>, l: seq<T>, now: seq<T>, later: seq<T>)
    requires d' + l' == d + (l + now)
    ensures d' + (l' + later) == d + (l + (now + later))
  {
    Grouped(d', l', later);
    Grouped(d, l + now, later);
    Grouped(l, now, later);
  }

  /** Over any run, with any names: of each name the list holds what a queue would, and the
      destroyed modules are the others, in the order they were added. */
  lemma NamesAreQueues(ops: seq<Op>, name: string)
    ensures var s := ApplyAll(Log([], []), ops);
            && OfName(s.list, name) == Queue([], ops, name)
            && OfName(s.destroyed, name) + OfName(s.list, name) == OfName(Added(ops), name)
  {
    RunOfName(Log([], []), ops, name);
    assert [] + ([] + OfName(Added(ops), name)) == OfName(Added(ops), name);
  }

  lemma {:induction false} ApplyAllSnoc(s: Log, ops: seq<Op>, op: Op)
    ensures ApplyAll(s, ops + [op]) == Apply(ApplyAll(s, ops), op)
    decreases |ops|
  {
    if ops == [] {
      assert ops + [op] == [op] && [op][1..] == [];
    } else {
      assert (ops + [op])[1..] == ops[1..] + [op];
      ApplyAllSnoc(Apply(s, ops[0]), ops[1..], op);
    }
  }

  lemma {:induction false} AddedConcat(a: seq<Op>, b: seq<Op>)
    ensures Added(a + b) == Added(a) + Added(b)
  {
    if a == [] {
      assert a + b == b;
    } else {
      TailConcat(a, b);
      AddedConcat(a[1..], b);
      Grouped(Joined(a[0]), Added(a[1..]), Added(b));
    }
  }

  /** Removing all at the end of a run destroys every module that was added, once. */
  lemma RemovingAllLeavesNone(ops: seq<Op>)
    requires Distinct(Added(ops))
    ensures var s := ApplyAll(Log([], []), ops + [RemoveAllOp]);
            s.list == [] && multiset(s.destroyed) == multiset(Added(ops))
  {
    AddedConcat(ops, [RemoveAllOp]);
    assert Added([RemoveAllOp]) == [];
    assert Added(ops + [RemoveAllOp]) == Added(ops);
    RunsConserveModules(ops + [RemoveAllOp]);
    ApplyAllSnoc(Log([], []), ops, RemoveAllOp);
  }
}
