/** Introspection of paths without interfaces of their own: the node names of the root
    document, at most a hundred (src/dbus-server/server.c). */
module RootIntrospection {
  import opened Options
  import opened ModuleLib
  import opened ModuleRegistry
  import opened IntrospectionFormat
  import opened Introspection
  import opened IntrospectionGenerator
  import opened IntrospectionRoundTrip

  const MAX_NODES: nat := 100

  /** Where the last slash stands (strrchr). */
  function LastSlash(s: string): Option<nat> {
    if s == "" then None
    else if s[|s| - 1] == '/' then Some(|s| - 1)
    else LastSlash(s[..|s| - 1])
  }

  lemma {:induction false} LastSlashBound(s: string)
    ensures LastSlash(s).Some? ==> LastSlash(s).value < |s| && s[LastSlash(s).value] == '/'
    ensures forall i :: (if LastSlash(s).Some? then LastSlash(s).value + 1 else 0) <= i < |s| ==> s[i] != '/'
  {
    if s != "" && s[|s| - 1] != '/' { LastSlashBound(s[..|s| - 1]); }
  }

  /** The last component of an object path, when it is not empty. */
  function NodeName(path: Option<string>): Option<string> {
    if path.None? || path.value == "" then None
    else
      match LastSlash(path.value)
      case None => None
      case Some(k) =>
        LastSlashBound(path.value);
        if k + 1 == |path.value| then None else Some(path.value[k + 1..])
  }

  /** `n` is what follows the last slash of `p`, and is not empty. */
  predicate LastComponent(p: string, n: string) {
    n != "" && '/' !in n && |n| < |p| && p[|p| - |n|..] == n && p[|p| - |n| - 1] == '/'
  }

  /** The node name of a path is its last component. */
  lemma NodeNameExactly(path: Option<string>, n: string)
    ensures NodeName(path) == Some(n) <==> path.Some? && LastComponent(path.value, n)
  {
    if path.Some? {
      var p := path.value;
      LastSlashBound(p);
      if LastComponent(p, n) {
        var k := |p| - |n| - 1;
        assert forall i :: k < i < |p| ==> p[i] == n[i - k - 1];
        assert LastSlash(p) == Some(k);
      }
    }
  }

  /** A path has none exactly when it is missing, holds no slash or ends in one. */
  lemma NodeNameMissing(path: Option<string>)
    ensures NodeName(path).None? <==>
      path.None? || '/' !in path.value || path.value[|path.value| - 1] == '/'
  {
    if path.Some? { LastSlashBound(path.value); }
  }

  function NameList(path: Option<string>): seq<string> {
    match NodeName(path)
    case Some(n) => [n]
    case None => []
  }

  /** The node names of the interfaces, in list order, with repetitions. */
  function Names(ifaces: seq<Interface>): seq<string> {
    if ifaces == [] then [] else Names(ifaces[..|ifaces| - 1]) + NameList(ifaces[|ifaces| - 1].path)
  }

  function AllNames(ms: seq<seq<Interface>>): seq<string> {
    if ms == [] then [] else AllNames(ms[..|ms| - 1]) + Names(ms[|ms| - 1])
  }

  /** Some interface of some module has a path with this last component. */
  predicate EndsSomePath(ms: seq<seq<Interface>>, n: string) {
    exists i, j :: 0 <= i < |ms| && 0 <= j < |ms[i]| && ms[i][j].path.Some? && LastComponent(ms[i][j].path.value, n)
  }

  lemma {:induction false} InNames(ifaces: seq<Interface>, n: string)
    ensures n in Names(ifaces) <==>
      exists j :: 0 <= j < |ifaces| && ifaces[j].path.Some? && LastComponent(ifaces[j].path.value, n)
  {
    if ifaces != [] {
      var front, last := ifaces[..|ifaces| - 1], ifaces[|ifaces| - 1];
      InNames(front, n);
      NodeNameExactly(last.path, n);
    }
  }

  lemma {:induction false} InAllNames(ms: seq<seq<Interface>>, n: string)
    ensures n in AllNames(ms) <==> EndsSomePath(ms, n)
  {
    if ms != [] {
      var front, last := ms[..|ms| - 1], ms[|ms| - 1];
      InAllNames(front, n);
      InNames(last, n);
      assert EndsSomePath(ms, n) <== EndsSomePath(front, n);
    }
  }

  function FirstOccurrences(names: seq<string>): seq<string> {
    if names == [] then []
    else
      var d := FirstOccurrences(names[..|names| - 1]);
      var last := names[|names| - 1];
      if last in d then d else d + [last]
  }

  function Capped(d: seq<string>): seq<string> {
    if |d| <= MAX_NODES then d else d[..MAX_NODES]
  }

  function RootNames(names: seq<string>): seq<string> {
    Capped(FirstOccurrences(names))
  }

  // ----- What the list of root nodes is -----

  function FirstIndex(names: seq<string>, x: string): (k: nat)
    ensures k <= |names|
    ensures k < |names| ==> names[k] == x
    ensures forall i :: 0 <= i < k ==> names[i] != x
  {
    if names == [] || names[0] == x then 0 else 1 + FirstIndex(names[1..], x)
  }

  lemma FirstIndexSnoc(names: seq<string>, last: string, x: string)
    ensures x in names ==> FirstIndex(names + [last], x) == FirstIndex(names, x) < |names|
    ensures x !in names && x == last ==> FirstIndex(names + [last], x) == |names|
  {
    if x in names {
      var k := FirstIndex(names, x);
      assert (names + [last])[k] == x;
      assert forall i :: 0 <= i < k ==> (names + [last])[i] == names[i];
    } else if x == last {
      assert (names + [last])[|names|] == x;
      assert forall i :: 0 <= i < |names| ==> (names + [last])[i] == names[i];
    }
  }

  lemma {:induction false} OccurrencesExact(names: seq<string>)
    ensures forall x :: x in FirstOccurrences(names) <==> x in names
    ensures forall i, j :: 0 <= i < j < |FirstOccurrences(names)| ==>
      FirstIndex(names, FirstOccurrences(names)[i]) < FirstIndex(names, FirstOccurrences(names)[j])
  {
    if names != [] {
      var front, last := names[..|names| - 1], names[|names| - 1];
      OccurrencesExact(front);
      assert names == front + [last];
      var d := FirstOccurrences(front);
      var e := FirstOccurrences(names);
      forall i, j | 0 <= i < j < |e|
        ensures FirstIndex(names, e[i]) < FirstIndex(names, e[j])
      {
        FirstIndexSnoc(front, last, e[i]);
        FirstIndexSnoc(front, last, e[j]);
        assert e[i] == d[i] && d[i] in front;
        if j < |d| { assert e[j] == d[j] && d[j] in front; }
      }
    }
  }

  /** The root lists distinct names in the order of their first occurrence, at most a
      hundred; a name is missing only when a hundred others occurred before it. */
  lemma RootNamesExact(names: seq<string>)
    ensures var r := RootNames(names);
      && |r| <= MAX_NODES
      && (forall i :: 0 <= i < |r| ==> r[i] in names)
      && (forall i, j :: 0 <= i < j < |r| ==> FirstIndex(names, r[i]) < FirstIndex(names, r[j]))
      && (forall x :: x in names && x !in r ==>
            |r| == MAX_NODES && forall i :: 0 <= i < |r| ==> FirstIndex(names, r[i]) < FirstIndex(names, x))
  {
    OccurrencesExact(names);
    var d := FirstOccurrences(names);
    var r := RootNames(names);
    assert forall i :: 0 <= i < |r| ==> r[i] == d[i] && d[i] in d;
    forall x | x in names && x !in r
      ensures |r| == MAX_NODES && forall i :: 0 <= i < |r| ==> FirstIndex(names, r[i]) < FirstIndex(names, x)
    {
      assert x in d;
      var k :| 0 <= k < |d| && d[k] == x;
    }
  }

  /** For the modules of a server: what the root lists are last components of interface
      paths, each once, and all of them unless there are more than a hundred. */
  lemma RootListsComponents(ms: seq<seq<Interface>>, n: string)
    ensures var r := RootNames(AllNames(ms));
      && |r| <= 100
      && (n in r ==> EndsSomePath(ms, n))
      && (EndsSomePath(ms, n) && |r| < 100 ==> n in r)
      && (forall i, j :: 0 <= i < j < |r| ==> r[i] != r[j])
  {
    RootNamesExact(AllNames(ms));
    InAllNames(ms, n);
  }

  lemma CapStep(names: seq<string>, name: string)
    ensures var c := RootNames(names);
      RootNames(names + [name]) == if name in c || |c| == MAX_NODES then c else c + [name]
  {
    assert (names + [name])[..|names|] == names;
    var d := FirstOccurrences(names);
    assert FirstOccurrences(names + [name]) == if name in d then d else d + [name];
    if |d| >= MAX_NODES {
      assert (d + [name])[..MAX_NODES] == d[..MAX_NODES];
    }
  }

  lemma {:induction false} ChildLinesSnoc(names: seq<string>, name: string)
    ensures ChildLines(names + [name])
         == ChildLines(names) + [Line(INTERFACE_INDENT, Empty("node", [("name", name)]))]
  {
    if names == [] {
      assert names + [name] == [name] && [name][1..] == [];
    } else {
      assert (names + [name])[1..] == names[1..] + [name];
      ChildLinesSnoc(names[1..], name);
    }
  }

  // ----- The generator -----

  method AlreadySeen(seen: array<string>, count: nat, name: string) returns (found: bool)
    requires count <= seen.Length
    ensures found <==> name in seen[..count]
  {
    var i := 0;
    while i < count
      invariant i <= count && name !in seen[..i]
    {
      if seen[i] == name {
        assert seen[..count][i] == name;
        return true;
      }
      i := i + 1;
    }
    return false;
  }

  /** What the loops have done once they met `names`: the array holds the root names so
      far, and the text ends with a line for each. */
  ghost predicate Collected(seen: array<string>, count: nat, text: string, lines: seq<Line>, names: seq<string>)
    reads seen
  {
    && seen.Length == MAX_NODES && count <= MAX_NODES
    && seen[..count] == RootNames(names)
    && text == Text(lines + ChildLines(RootNames(names)))
  }

  /** One interface: its node name is written unless it was seen or the array is full. */
  method AppendNode(seen: array<string>, count: nat, xml: string, path: Option<string>,
                    ghost lines: seq<Line>, ghost names: seq<string>)
    returns (newCount: nat, text: string)
    requires Collected(seen, count, xml, lines, names)
    modifies seen
    ensures Collected(seen, newCount, text, lines, names + NameList(path))
  {
    var node := NodeName(path);
    newCount, text := count, xml;
    if node.None? {
      assert names + [] == names;
      return;
    }
    CapStep(names, node.value);
    var found := AlreadySeen(seen, count, node.value);
    if !found && count < MAX_NODES {
      ghost var c := RootNames(names);
      seen[count] := node.value;
      newCount := count + 1;
      assert seen[..newCount] == c + [node.value];
      text := AppendChild(xml, node.value, lines + ChildLines(c));
      ChildLinesSnoc(c, node.value);
      Regroup(lines, ChildLines(c), [Line(INTERFACE_INDENT, Empty("node", [("name", node.value)]))]);
    }
  }

  lemma NamesSnoc(names: seq<string>, views: seq<Interface>, n: nat)
    requires n < |views|
    ensures names + Names(views[..n]) + NameList(views[n].path) == names + Names(views[..n + 1])
  {
    assert views[..n + 1][..n] == views[..n];
    Regroup(names, Names(views[..n]), NameList(views[n].path));
  }

  /** The inner loop, over the interfaces of one module. */
  method AppendNodes(seen: array<string>, count: nat, xml: string, m: ModuleNode,
                     ghost lines: seq<Line>, ghost names: seq<string>, ghost views: seq<Interface>)
    returns (newCount: nat, text: string)
    requires views == m.Views() && Collected(seen, count, xml, lines, names)
    modifies seen
    ensures Collected(seen, newCount, text, lines, names + Names(views))
  {
    newCount, text := count, xml;
    var n := 0;
    assert names + Names(views[..0]) == names;
    while n < |m.interfaces|
      invariant n <= |m.interfaces|
      invariant Collected(seen, newCount, text, lines, names + Names(views[..n]))
    {
      var path := m.interfaces[n].path;
      assert views[n].path == path;
      NamesSnoc(names, views, n);
      newCount, text := AppendNode(seen, newCount, text, path, lines, names + Names(views[..n]));
      n := n + 1;
    }
    assert views[..n] == views;
  }

  /** The outer loop, over the modules of the server. */
  method AppendAllNodes(server: Registry, xml: string, ghost lines: seq<Line>, ghost ms: seq<seq<Interface>>)
    returns (text: string)
    requires server.Valid() && xml == Text(lines)
    requires |ms| == |server.spine| && forall i :: 0 <= i < |ms| ==> ms[i] == server.spine[i].Views()
    ensures text == Text(lines + ChildLines(RootNames(AllNames(ms))))
  {
    var seen := new string[MAX_NODES](_ => "");
    var count := 0;
    var current := server.modules;
    text := xml;
    ghost var i := 0;
    assert lines + ChildLines(RootNames(AllNames(ms[..0]))) == lines;
    while current != null
      invariant i <= |ms| && (if i < |ms| then current == server.spine[i] else current == null)
      invariant Collected(seen, count, text, lines, AllNames(ms[..i]))
      decreases |ms| - i
      modifies seen
    {
      count, text := AppendNodes(seen, count, text, current, lines, AllNames(ms[..i]), ms[i]);
      assert ms[..i + 1][..i] == ms[..i];
      current := current.next;
      i := i + 1;
    }
    assert ms[..i] == ms;
  }

  /** What follows the header of the root document. */
  method AppendRootBody(server: Registry, xml: string, ghost header: seq<Line>, ghost ms: seq<seq<Interface>>,
                        ghost names: seq<string>, ghost all: seq<Line>)
    returns (text: string)
    requires server.Valid() && xml == Text(header)
    requires |ms| == |server.spine| && forall i :: 0 <= i < |ms| ==> ms[i] == server.spine[i].Views()
    requires names == RootNames(AllNames(ms)) && all == header + ChildLines(names) + Footer
    ensures text == Text(all)
  {
    text := AppendAllNodes(server, xml, header, ms);
    text := AppendNodeEnd(text, header + ChildLines(names));
  }

  function RootText(ms: seq<seq<Interface>>): string {
    Text(RootLines(RootNames(AllNames(ms))))
  }

  /** generate_root_introsperction_xml, where `ms` names what the modules hold. */
  method GenerateRoot(server: Registry, ghost ms: seq<seq<Interface>>, ghost names: seq<string>)
    returns (xml: string)
    requires server.Valid() && names == RootNames(AllNames(ms))
    requires |ms| == |server.spine| && forall i :: 0 <= i < |ms| ==> ms[i] == server.spine[i].Views()
    ensures xml == Text(RootLines(names))
  {
    var header := GenerateHeader();
    assert server.Valid();
    xml := AppendRootBody(server, header, Header(), ms, names, RootLines(names));
  }

  // ----- handle_introspect -----

  predicate ServesPath(ifaces: seq<Interface>, path: string) {
    exists i :: 0 <= i < |ifaces| && ifaces[i].path == Some(path)
  }

  /** The document sent for a path: of the first module with an interface there, or else
      of the root. */
  function Reply(modules: seq<seq<Interface>>, path: string, root: string): string {
    if modules == [] then root
    else if ServesPath(modules[0], path) then Text(ModuleLines(modules[0], Some(path)))
    else Reply(modules[1..], path, root)
  }

  lemma ReplyStep(ms: seq<seq<Interface>>, path: string, root: string, i: nat)
    requires i < |ms|
    ensures Reply(ms[i..], path, root) == if ServesPath(ms[i], path) then Text(ModuleLines(ms[i], Some(path)))
                                          else Reply(ms[i + 1..], path, root)
  {
    assert ms[i..][0] == ms[i] && ms[i..][1..] == ms[i + 1..];
  }

  method HasPath(m: ModuleNode, path: string) returns (found: bool)
    ensures found <==> ServesPath(m.Views(), path)
  {
    ghost var views := m.Views();
    var n := 0;
    while n < |m.interfaces|
      invariant n <= |m.interfaces|
      invariant forall i :: 0 <= i < n ==> views[i].path != Some(path)
    {
      if m.interfaces[n].path == Some(path) {
        assert views[n].path == Some(path);
        return true;
      }
      assert views[n].path == m.interfaces[n].path;
      n := n + 1;
    }
    return false;
  }

  /** The document of a module, when it has an interface at the path. */
  method DocumentOf(m: ModuleNode, path: string, ghost view: seq<Interface>) returns (data: Option<string>)
    requires view == m.Views()
    ensures data == if ServesPath(view, path) then Some(Text(ModuleLines(view, Some(path)))) else None
  {
    var found := HasPath(m, path);
    if !found {
      return None;
    }
    var document := GenerateModule(m, Some(path), view);
    return Some(document);
  }

  /** The loop of handle_introspect over the modules, where `root` is the document of the
      root. */
  method FindDocument(server: Registry, path: string, ghost ms: seq<seq<Interface>>, ghost root: string)
    returns (data: Option<string>)
    requires server.Valid()
    requires |ms| == |server.spine| && forall i :: 0 <= i < |ms| ==> ms[i] == server.spine[i].Views()
    ensures Reply(ms, path, root) == if data.Some? then data.value else root
  {
    var current := server.modules;
    ghost var i := 0;
    assert ms[0..] == ms;
    while current != null
      invariant i <= |ms| && (if i < |ms| then current == server.spine[i] else current == null)
      invariant Reply(ms, path, root) == Reply(ms[i..], path, root)
      decreases |ms| - i
    {
      ReplyStep(ms, path, root, i);
      data := DocumentOf(current, path, ms[i]);
      if data.Some? {
        return;
      }
      current := current.next;
      i := i + 1;
    }
    return None;
  }

  /** handle_introspect up to sending the reply. */
  method HandleIntrospect(server: Registry, path: string, ghost ms: seq<seq<Interface>>) returns (data: string)
    requires server.Valid()
    requires |ms| == |server.spine| && forall i :: 0 <= i < |ms| ==> ms[i] == server.spine[i].Views()
    ensures data == Reply(ms, path, RootText(ms))
  {
    var document := FindDocument(server, path, ms, RootText(ms));
    if document.Some? {
      data := document.value;
    } else {
      data := GenerateRoot(server, ms, RootNames(AllNames(ms)));
    }
  }

  predicate CleanNames(names: seq<string>) {
    forall i :: 0 <= i < |names| ==> Clean(names[i])
  }

  /** What a reader of the reply should find: the interfaces at the path of the first
      module that has one there, or else what the root says. */
  ghost function Found(modules: seq<seq<Interface>>, path: string, root: NodeDesc): NodeDesc {
    if exists i :: 0 <= i < |modules| && ServesPath(modules[i], path)
    then NodeDesc([StandardDesc] + DescribeAll(modules[FirstServing(modules, path)], Some(path)), [])
    else root
  }

  lemma FoundLater(modules: seq<seq<Interface>>, path: string, root: NodeDesc)
    requires modules != [] && !ServesPath(modules[0], path)
    ensures Found(modules, path, root) == Found(modules[1..], path, root)
  {
    assert forall i :: 1 <= i < |modules| ==> modules[i] == modules[1..][i - 1];
    if j :| 0 <= j < |modules| && ServesPath(modules[j], path) {
      assert ServesPath(modules[1..][j - 1], path);
    }
  }

  lemma {:induction false} ReplyParses(modules: seq<seq<Interface>>, path: string, root: string, desc: NodeDesc)
    requires forall i :: 0 <= i < |modules| ==> CleanInterfaces(modules[i])
    requires ParseDocument(root) == Some(desc)
    ensures ParseDocument(Reply(modules, path, root)) == Some(Found(modules, path, desc))
    decreases |modules|
  {
    if modules == [] {
    } else if ServesPath(modules[0], path) {
      ModuleRoundTrip(modules[0], Some(path));
    } else {
      ReplyParses(modules[1..], path, root, desc);
      FoundLater(modules, path, desc);
    }
  }

  /** Whatever the path, the reply parses: to the interfaces at the path of the first
      module that has one there, or to the distinct node names when none has. */
  lemma ReplyReadsBack(ms: seq<seq<Interface>>, path: string)
    requires CleanNames(AllNames(ms)) && forall i :: 0 <= i < |ms| ==> CleanInterfaces(ms[i])
    ensures ParseDocument(Reply(ms, path, RootText(ms)))
         == Some(Found(ms, path, NodeDesc([StandardDesc], RootNames(AllNames(ms)))))
  {
    RootNamesExact(AllNames(ms));
    RootRoundTrip(RootNames(AllNames(ms)));
    ReplyParses(ms, path, RootText(ms), NodeDesc([StandardDesc], RootNames(AllNames(ms))));
  }

  function FirstServing(rest: seq<seq<Interface>>, path: string): (k: nat)
    requires exists i :: 0 <= i < |rest| && ServesPath(rest[i], path)
    ensures k < |rest| && ServesPath(rest[k], path) && forall j :: 0 <= j < k ==> !ServesPath(rest[j], path)
  {
    if ServesPath(rest[0], path) then 0
    else
      assert forall i :: 1 <= i < |rest| ==> rest[i] == rest[1..][i - 1];
      1 + FirstServing(rest[1..], path)
  }

  /** No interface of the module is at the path. */
  predicate NothingAt(ifaces: seq<Interface>, path: string) {
    forall j :: 0 <= j < |ifaces| ==> ifaces[j].path != Some(path)
  }

  /** Up to a hundred names, each once: last components of interface paths, and all of those
      unless there are more than a hundred. */
  ghost predicate ListsComponents(children: seq<string>, ms: seq<seq<Interface>>) {
    && |children| <= 100
    && (forall n :: n in children ==> EndsSomePath(ms, n))
    && (|children| < 100 ==> forall n :: EndsSomePath(ms, n) ==> n in children)
    && (forall i, j :: 0 <= i < j < |children| ==> children[i] != children[j])
  }

  lemma RootChildren(ms: seq<seq<Interface>>)
    ensures ListsComponents(RootNames(AllNames(ms)), ms)
  {
    RootListsComponents(ms, "");
    forall n { RootListsComponents(ms, n); }
  }

  lemma ServesUnlessNothing(ifaces: seq<Interface>, path: string)
    ensures ServesPath(ifaces, path) <==> !NothingAt(ifaces, path)
  {
  }

  /** Whatever the path, what the reply says: the interfaces at the path of the first module
      `k` that has one there, or else the last components. */
  lemma ReplyTellsExactly(ms: seq<seq<Interface>>, path: string) returns (desc: NodeDesc, k: nat, at: seq<nat>)
    requires CleanNames(AllNames(ms)) && forall i :: 0 <= i < |ms| ==> CleanInterfaces(ms[i])
    ensures ParseDocument(Reply(ms, path, RootText(ms))) == Some(desc)
    ensures desc.interfaces != [] && desc.interfaces[0] == StandardDesc
    ensures k <= |ms| && forall i :: 0 <= i < k ==> NothingAt(ms[i], path)
    ensures k < |ms| ==>
      && !NothingAt(ms[k], path) && desc.children == []
      && ExactlyAt(at, ms[k], Some(path)) && TellsAll(desc.interfaces[1..], ms[k], at)
    ensures k == |ms| ==> |desc.interfaces| == 1 && ListsComponents(desc.children, ms)
  {
    ReplyReadsBack(ms, path);
    RootChildren(ms);
    forall i | 0 <= i < |ms| { ServesUnlessNothing(ms[i], path); }
    desc := Found(ms, path, NodeDesc([StandardDesc], RootNames(AllNames(ms))));
    k, at := |ms|, [];
    if exists i :: 0 <= i < |ms| && ServesPath(ms[i], path) {
      k := FirstServing(ms, path);
      at := DescribedAt(ms[k], Some(path));
      assert desc.interfaces[1..] == DescribeAll(ms[k], Some(path));
    }
  }
}
