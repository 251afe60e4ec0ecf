/** Introspection data of modules and of the root path: the generators
    (src/dbus-server/module-lib.c, src/dbus-server/server.c), a parser for what they
    produce, and the round trip between the two. */
module Introspection {
  import opened Options
  import opened ModuleLib
  import opened IntrospectionFormat

  // ----- Descriptions and their parser -----

  datatype ArgDesc = ArgDesc(name: string, direction: string, signature: string)
  datatype MethodDesc = MethodDesc(name: string, args: seq<ArgDesc>)
  datatype InterfaceDesc = InterfaceDesc(name: string, methods: seq<MethodDesc>)
  datatype NodeDesc = NodeDesc(interfaces: seq<InterfaceDesc>, children: seq<string>)

  function Attribute(a: Attributes, key: string): Option<string> {
    if a == [] then None else if a[0].0 == key then Some(a[0].1) else Attribute(a[1..], key)
  }

  function ParseArg(t: Token): Option<ArgDesc> {
    if !t.Empty? || t.name != "arg" then None
    else
      match (Attribute(t.attributes, "name"), Attribute(t.attributes, "direction"), Attribute(t.attributes, "type"))
      case (Some(n), Some(d), Some(s)) => Some(ArgDesc(n, d, s))
      case _ => None
  }

  /** The arguments at the front of `ts`, and what follows them. */
  function ParseArgs(ts: seq<Token>): (seq<ArgDesc>, seq<Token>) {
    if ts != [] && ParseArg(ts[0]).Some? then
      var (args, rest) := ParseArgs(ts[1..]);
      ([ParseArg(ts[0]).value] + args, rest)
    else ([], ts)
  }

  function NameOf(t: Token, element: string): Option<string> {
    if t.Open? && t.name == element then Attribute(t.attributes, "name") else None
  }

  function ParseMethods(ts: seq<Token>): (r: (seq<MethodDesc>, seq<Token>))
    ensures |r.1| <= |ts|
    decreases |ts|
  {
    if ts != [] && NameOf(ts[0], "method").Some? then
      ParseArgsShorter(ts[1..]);
      var (args, rest) := ParseArgs(ts[1..]);
      if rest != [] && rest[0] == Close("method") then
        var (more, after) := ParseMethods(rest[1..]);
        ([MethodDesc(NameOf(ts[0], "method").value, args)] + more, after)
      else ([], ts)
    else ([], ts)
  }

  lemma {:induction false} ParseArgsShorter(ts: seq<Token>)
    ensures |ParseArgs(ts).1| <= |ts|
  {
    if ts != [] { ParseArgsShorter(ts[1..]); }
  }

  function ParseInterfaces(ts: seq<Token>): (r: (seq<InterfaceDesc>, seq<Token>))
    ensures |r.1| <= |ts|
    decreases |ts|
  {
    if ts != [] && NameOf(ts[0], "interface").Some? then
      var (methods, rest) := ParseMethods(ts[1..]);
      if rest != [] && rest[0] == Close("interface") then
        var (more, after) := ParseInterfaces(rest[1..]);
        ([InterfaceDesc(NameOf(ts[0], "interface").value, methods)] + more, after)
      else ([], ts)
    else ([], ts)
  }

  function ParseChildren(ts: seq<Token>): (seq<string>, seq<Token>) {
    if ts != [] && ts[0].Empty? && ts[0].name == "node" && Attribute(ts[0].attributes, "name").Some? then
      var (more, rest) := ParseChildren(ts[1..]);
      ([Attribute(ts[0].attributes, "name").value] + more, rest)
    else ([], ts)
  }

  /** A whole document: declaration, one node element holding interfaces and child
      nodes, and nothing after its end. */
  function ParseDocument(text: string): Option<NodeDesc> {
    match Lex(text)
    case None => None
    case Some(ts) =>
      if |ts| < 2 || ts[0] != Declaration || ts[1] != Open("node", []) then None
      else
        var (interfaces, rest) := ParseInterfaces(ts[2..]);
        var (children, end) := ParseChildren(rest);
        if end == [Close("node")] then Some(NodeDesc(interfaces, children)) else None
  }

  // ----- What the generators write -----

  predicate NonEmpty(s: Option<string>) {
    s.Some? && s.value != ""
  }

  function ArgLine(name: string, direction: string, signature: string): Line {
    Line("      ", Empty("arg", [("name", name), ("direction", direction), ("type", signature)]))
  }

  function OpenLine(indent: string, element: string, name: string): Line {
    Line(indent, Open(element, [("name", name)]))
  }

  function InArg(m: Method): seq<Line> {
    if NonEmpty(m.signature) then [ArgLine("value", "in", m.signature.value)] else []
  }

  function OutArg(m: Method): seq<Line> {
    if NonEmpty(m.returnSignature) then [ArgLine("result", "out", m.returnSignature.value)] else []
  }

  const METHOD_INDENT := "    "
  const INTERFACE_INDENT := "  "

  function MethodLines(m: Method): seq<Line> {
    [OpenLine(METHOD_INDENT, "method", m.name)] + (InArg(m) + OutArg(m)) + [Line(METHOD_INDENT, Close("method"))]
  }

  function AllMethodLines(ms: seq<Method>): seq<Line> {
    if ms == [] then [] else MethodLines(ms[0]) + AllMethodLines(ms[1..])
  }

  /** Without an object path every interface is shown. */
  predicate Shown(i: Interface, path: Option<string>) {
    path.None? || i.path == path
  }

  function InterfaceLines(i: Interface): seq<Line> {
    [OpenLine(INTERFACE_INDENT, "interface", i.name)] + AllMethodLines(i.methods)
      + [Line(INTERFACE_INDENT, Close("interface"))]
  }

  function ShownLines(i: Interface, path: Option<string>): seq<Line> {
    if Shown(i, path) then InterfaceLines(i) else []
  }

  function AllInterfaceLines(ifaces: seq<Interface>, path: Option<string>): seq<Line> {
    if ifaces == [] then [] else ShownLines(ifaces[0], path) + AllInterfaceLines(ifaces[1..], path)
  }

  const INTROSPECTABLE := "org.freedesktop." + "DBus." + "Introspectable"

  /** The standard interface is written by hand, with an argument name of its own. */
  function StandardLines(): seq<Line> {
    [OpenLine(INTERFACE_INDENT, "interface", INTROSPECTABLE),
     OpenLine(METHOD_INDENT, "method", "Introspect"),
     ArgLine("data", "out", "s"),
     Line(METHOD_INDENT, Close("method")),
     Line(INTERFACE_INDENT, Close("interface"))]
  }

  function Header(): seq<Line> {
    [Line("", Declaration), Line("", Open("node", []))] + StandardLines()
  }

  const Footer: seq<Line> := [Line("", Close("node"))]

  function ModuleLines(ifaces: seq<Interface>, path: Option<string>): seq<Line> {
    Header() + AllInterfaceLines(ifaces, path) + Footer
  }

  function ChildLines(names: seq<string>): seq<Line> {
    if names == [] then []
    else [Line(INTERFACE_INDENT, Empty("node", [("name", names[0])]))] + ChildLines(names[1..])
  }

  function RootLines(names: seq<string>): seq<Line> {
    Header() + ChildLines(names) + Footer
  }

  // ----- What a reader should find -----

  function DescribeMethod(m: Method): MethodDesc {
    MethodDesc(m.name,
      (if NonEmpty(m.signature) then [ArgDesc("value", "in", m.signature.value)] else [])
      + (if NonEmpty(m.returnSignature) then [ArgDesc("result", "out", m.returnSignature.value)] else []))
  }

  function DescribeMethods(ms: seq<Method>): seq<MethodDesc> {
    seq(|ms|, k requires 0 <= k < |ms| => DescribeMethod(ms[k]))
  }

  function Describe(i: Interface): InterfaceDesc {
    InterfaceDesc(i.name, DescribeMethods(i.methods))
  }

  const StandardDesc: InterfaceDesc :=
    InterfaceDesc(INTROSPECTABLE, [MethodDesc("Introspect", [ArgDesc("data", "out", "s")])])

  /** The descriptions of the interfaces shown at the path, in list order. */
  function DescribeAll(ifaces: seq<Interface>, path: Option<string>): seq<InterfaceDesc> {
    if ifaces == [] then []
    else (if Shown(ifaces[0], path) then [Describe(ifaces[0])] else []) + DescribeAll(ifaces[1..], path)
  }

  predicate CleanOption(s: Option<string>) {
    s.Some? ==> Clean(s.value)
  }

  predicate CleanMethod(m: Method) {
    Clean(m.name) && CleanOption(m.signature) && CleanOption(m.returnSignature)
  }

  predicate CleanInterface(i: Interface) {
    Clean(i.name) && forall k :: 0 <= k < |i.methods| ==> CleanMethod(i.methods[k])
  }

  predicate CleanInterfaces(ifaces: seq<Interface>) {
    forall i :: 0 <= i < |ifaces| ==> CleanInterface(ifaces[i])
  }

  // ----- The lines are clean -----

  lemma ElementsAreWords()
    ensures Word("node") && Word("interface") && Word("method") && Word("arg")
  {
    assert Word("node");
    assert Word("interface");
    assert Word("method");
    assert Word("arg");
  }

  lemma ValuesAreClean()
    ensures Clean("value") && Clean("in") && Clean("result") && Clean("out") && Clean("data") && Clean("s")
    ensures Clean("Introspect")
  {
    assert Clean("value") && Clean("in");
    assert Clean("result") && Clean("out");
    assert Clean("data") && Clean("s");
    assert Clean("Introspect");
  }

  lemma WordsAreClean()
    ensures Word("node") && Word("interface") && Word("method") && Word("arg")
    ensures Clean("value") && Clean("in") && Clean("result") && Clean("out") && Clean("data") && Clean("s")
    ensures Clean("Introspect")
  {
    ElementsAreWords();
    ValuesAreClean();
  }

  lemma NameClean(name: string)
    requires Clean(name)
    ensures CleanAttributes([("name", name)])
  {
    assert Clean("name") && Without("name", '=') && !Blank("name"[0]);
  }

  lemma ArgClean(name: string, direction: string, signature: string)
    requires Clean(name) && Clean(direction) && Clean(signature)
    ensures CleanLine(ArgLine(name, direction, signature))
  {
    WordsAreClean();
    assert Clean("name") && Without("name", '=') && !Blank("name"[0]);
    assert Clean("direction") && Without("direction", '=') && !Blank("direction"[0]);
    assert Clean("type") && Without("type", '=') && !Blank("type"[0]);
  }

  lemma MethodLinesClean(m: Method)
    requires CleanMethod(m)
    ensures CleanLines(MethodLines(m))
  {
    WordsAreClean();
    NameClean(m.name);
    if NonEmpty(m.signature) { ArgClean("value", "in", m.signature.value); }
    if NonEmpty(m.returnSignature) { ArgClean("result", "out", m.returnSignature.value); }
  }

  lemma {:induction false} AllMethodLinesClean(ms: seq<Method>)
    requires forall k :: 0 <= k < |ms| ==> CleanMethod(ms[k])
    ensures CleanLines(AllMethodLines(ms))
  {
    if ms != [] {
      MethodLinesClean(ms[0]);
      AllMethodLinesClean(ms[1..]);
    }
  }

  lemma InterfaceLinesClean(i: Interface)
    requires CleanInterface(i)
    ensures CleanLines(InterfaceLines(i))
  {
    WordsAreClean();
    NameClean(i.name);
    AllMethodLinesClean(i.methods);
  }

  lemma {:induction false} AllInterfaceLinesClean(ifaces: seq<Interface>, path: Option<string>)
    requires CleanInterfaces(ifaces)
    ensures CleanLines(AllInterfaceLines(ifaces, path))
  {
    if ifaces != [] {
      InterfaceLinesClean(ifaces[0]);
      AllInterfaceLinesClean(ifaces[1..], path);
    }
  }

  lemma StandardNameClean()
    ensures Clean(INTROSPECTABLE)
  {
    assert Clean("org.freedesktop.");
    assert Clean("DBus.");
    assert Clean("Introspectable");
  }

  lemma HeaderClean()
    ensures CleanLines(Header()) && CleanLines(Footer)
  {
    WordsAreClean();
    StandardNameClean();
    NameClean(INTROSPECTABLE);
    NameClean("Introspect");
    ArgClean("data", "out", "s");
  }

  lemma {:induction false} ChildLinesClean(names: seq<string>)
    requires forall i :: 0 <= i < |names| ==> Clean(names[i])
    ensures CleanLines(ChildLines(names))
  {
    if names != [] {
      WordsAreClean();
      NameClean(names[0]);
      ChildLinesClean(names[1..]);
    }
  }
}
