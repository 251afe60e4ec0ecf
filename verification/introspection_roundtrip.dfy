/** What a reader of the introspection data finds: exactly the registered interfaces of
    the object path, with every element closed. */
module IntrospectionRoundTrip {
  import opened Options
  import opened ModuleLib
  import opened IntrospectionFormat
  import opened Introspection

  lemma ArgBack(name: string, direction: string, signature: string)
    ensures ParseArg(ArgLine(name, direction, signature).token) == Some(ArgDesc(name, direction, signature))
  {
    var a := ArgLine(name, direction, signature).token.attributes;
    assert a[1..] == [("direction", direction), ("type", signature)];
    assert a[1..][1..] == [("type", signature)];
    assert Attribute(a, "direction") == Attribute(a[1..], "direction") == Some(direction);
    assert Attribute(a, "type") == Attribute(a[1..], "type") == Attribute(a[1..][1..], "type") == Some(signature);
  }

  /** One argument in front of others. */
  lemma ArgsCons(name: string, direction: string, signature: string, ts: seq<Token>)
    ensures var r := ParseArgs(ts);
      ParseArgs([ArgLine(name, direction, signature).token] + ts) == ([ArgDesc(name, direction, signature)] + r.0, r.1)
  {
    ArgBack(name, direction, signature);
    assert ([ArgLine(name, direction, signature).token] + ts)[1..] == ts;
  }

  lemma MethodArgsBack(m: Method, rest: seq<Token>)
    requires rest != [] && rest[0].Close?
    ensures ParseArgs(Tokens(InArg(m)) + (Tokens(OutArg(m)) + rest)) == (DescribeMethod(m).args, rest)
  {
    var outs := Tokens(OutArg(m)) + rest;
    var insDesc := if NonEmpty(m.signature) then [ArgDesc("value", "in", m.signature.value)] else [];
    var outsDesc := if NonEmpty(m.returnSignature) then [ArgDesc("result", "out", m.returnSignature.value)] else [];
    assert ParseArgs(rest) == ([], rest);
    assert ParseArgs(outs) == (outsDesc, rest) by {
      if NonEmpty(m.returnSignature) {
        ArgsCons("result", "out", m.returnSignature.value, rest);
        assert Tokens(OutArg(m)) == [ArgLine("result", "out", m.returnSignature.value).token];
        assert outsDesc + [] == outsDesc;
      } else {
        assert outs == rest;
      }
    }
    assert ParseArgs(Tokens(InArg(m)) + outs) == (insDesc + outsDesc, rest) by {
      if NonEmpty(m.signature) {
        ArgsCons("value", "in", m.signature.value, outs);
        assert Tokens(InArg(m)) == [ArgLine("value", "in", m.signature.value).token];
      } else {
        assert Tokens(InArg(m)) + outs == outs && [] + outsDesc == outsDesc;
      }
    }
  }

  predicate EndsList(rest: seq<Token>, element: string) {
    rest != [] && NameOf(rest[0], element).None?
  }

  /** The tokens of a method, in the shape the parser takes them apart. */
  lemma MethodTokens(m: Method, rest: seq<Token>)
    ensures Tokens(MethodLines(m)) + rest
         == [Open("method", [("name", m.name)])]
            + (Tokens(InArg(m)) + (Tokens(OutArg(m)) + ([Close("method")] + rest)))
  {
    TokensConcat(InArg(m), OutArg(m));
    TokensConcat([OpenLine(METHOD_INDENT, "method", m.name)], InArg(m) + OutArg(m));
    TokensConcat([OpenLine(METHOD_INDENT, "method", m.name)] + (InArg(m) + OutArg(m)),
                 [Line(METHOD_INDENT, Close("method"))]);
  }

  lemma MethodBack(m: Method, rest: seq<Token>)
    ensures ParseMethods(Tokens(MethodLines(m)) + rest)
         == ([DescribeMethod(m)] + ParseMethods(rest).0, ParseMethods(rest).1)
  {
    var after := [Close("method")] + rest;
    var inner := Tokens(InArg(m)) + (Tokens(OutArg(m)) + after);
    MethodTokens(m, rest);
    MethodArgsBack(m, after);
    var ts := [Open("method", [("name", m.name)])] + inner;
    assert ts[1..] == inner && after[1..] == rest;
    assert NameOf(ts[0], "method") == Some(m.name);
  }

  lemma DescribeMethodsHead(ms: seq<Method>)
    requires ms != []
    ensures DescribeMethods(ms) == [DescribeMethod(ms[0])] + DescribeMethods(ms[1..])
  {
  }

  lemma TokensSplit(a: seq<Line>, b: seq<Line>, rest: seq<Token>)
    ensures Tokens(a + b) + rest == Tokens(a) + (Tokens(b) + rest)
  {
    TokensConcat(a, b);
  }

  lemma {:induction false} MethodsBack(ms: seq<Method>, rest: seq<Token>)
    requires EndsList(rest, "method")
    ensures ParseMethods(Tokens(AllMethodLines(ms)) + rest) == (DescribeMethods(ms), rest)
    decreases |ms|
  {
    if ms == [] {
      assert Tokens(AllMethodLines(ms)) + rest == rest;
      assert ParseMethods(rest) == ([], rest) && DescribeMethods(ms) == [];
    } else {
      var tail := Tokens(AllMethodLines(ms[1..])) + rest;
      TokensSplit(MethodLines(ms[0]), AllMethodLines(ms[1..]), rest);
      MethodBack(ms[0], tail);
      MethodsBack(ms[1..], rest);
      DescribeMethodsHead(ms);
    }
  }

  lemma InterfaceTokens(i: Interface, rest: seq<Token>)
    ensures Tokens(InterfaceLines(i)) + rest
         == [Open("interface", [("name", i.name)])]
            + (Tokens(AllMethodLines(i.methods)) + ([Close("interface")] + rest))
  {
    TokensConcat([OpenLine(INTERFACE_INDENT, "interface", i.name)], AllMethodLines(i.methods));
    TokensConcat([OpenLine(INTERFACE_INDENT, "interface", i.name)] + AllMethodLines(i.methods),
                 [Line(INTERFACE_INDENT, Close("interface"))]);
  }

  lemma InterfaceBack(i: Interface, rest: seq<Token>)
    ensures ParseInterfaces(Tokens(InterfaceLines(i)) + rest)
         == ([Describe(i)] + ParseInterfaces(rest).0, ParseInterfaces(rest).1)
  {
    var after := [Close("interface")] + rest;
    var inner := Tokens(AllMethodLines(i.methods)) + after;
    InterfaceTokens(i, rest);
    MethodsBack(i.methods, after);
    var ts := [Open("interface", [("name", i.name)])] + inner;
    assert ts[1..] == inner && after[1..] == rest;
    assert NameOf(ts[0], "interface") == Some(i.name);
  }

  lemma InterfacesStep(i: Interface, more: seq<Line>, rest: seq<Token>)
    ensures var r := ParseInterfaces(Tokens(more) + rest);
      ParseInterfaces(Tokens(InterfaceLines(i) + more) + rest) == ([Describe(i)] + r.0, r.1)
  {
    TokensSplit(InterfaceLines(i), more, rest);
    InterfaceBack(i, Tokens(more) + rest);
  }

  lemma {:induction false} InterfacesBack(ifaces: seq<Interface>, path: Option<string>, rest: seq<Token>)
    requires EndsList(rest, "interface")
    ensures ParseInterfaces(Tokens(AllInterfaceLines(ifaces, path)) + rest) == (DescribeAll(ifaces, path), rest)
    decreases |ifaces|
  {
    if ifaces == [] {
      assert Tokens(AllInterfaceLines(ifaces, path)) + rest == rest;
    } else {
      InterfacesBack(ifaces[1..], path, rest);
      if Shown(ifaces[0], path) {
        InterfacesStep(ifaces[0], AllInterfaceLines(ifaces[1..], path), rest);
      } else {
        assert AllInterfaceLines(ifaces, path) == AllInterfaceLines(ifaces[1..], path);
        assert DescribeAll(ifaces, path) == DescribeAll(ifaces[1..], path);
      }
    }
  }

  /** The hand-written standard interface, parsed. */
  lemma StandardBack(rest: seq<Token>)
    ensures ParseInterfaces(Tokens(StandardLines()) + rest)
         == ([StandardDesc] + ParseInterfaces(rest).0, ParseInterfaces(rest).1)
  {
    var after := [Close("interface")] + rest;
    var close := [Close("method")] + after;
    var arg := ArgLine("data", "out", "s").token;
    var args := [arg] + close;
    var methods := [Open("method", [("name", "Introspect")])] + args;
    var ts := [Open("interface", [("name", INTROSPECTABLE)])] + methods;
    assert Tokens(StandardLines()) + rest == ts;
    ArgsCons("data", "out", "s", close);
    assert ParseArgs(close) == ([], close);
    assert methods[1..] == args && close[1..] == after && ts[1..] == methods && after[1..] == rest;
    assert NameOf(methods[0], "method") == Some("Introspect");
    assert ParseMethods(after) == ([], after);
    assert [ArgDesc("data", "out", "s")] + [] == [ArgDesc("data", "out", "s")];
    var one := MethodDesc("Introspect", [ArgDesc("data", "out", "s")]);
    assert [one] + [] == [one];
    assert ParseMethods(methods) == ([MethodDesc("Introspect", [ArgDesc("data", "out", "s")])], after);
    assert NameOf(ts[0], "interface") == Some(INTROSPECTABLE);
  }

  lemma {:induction false} ChildrenBack(names: seq<string>, rest: seq<Token>)
    requires rest != [] && rest[0].Close?
    ensures ParseChildren(Tokens(ChildLines(names)) + rest) == (names, rest)
  {
    if names == [] {
      assert Tokens(ChildLines(names)) + rest == rest;
    } else {
      var first := Line(INTERFACE_INDENT, Empty("node", [("name", names[0])]));
      TokensConcat([first], ChildLines(names[1..]));
      var ts := Tokens(ChildLines(names)) + rest;
      assert ts == [first.token] + (Tokens(ChildLines(names[1..])) + rest);
      assert ts[1..] == Tokens(ChildLines(names[1..])) + rest;
      ChildrenBack(names[1..], rest);
      assert names == [names[0]] + names[1..];
    }
  }

  lemma DocumentTokens(body: seq<Line>)
    ensures Tokens(Header() + body + Footer)
         == [Declaration, Open("node", [])] + (Tokens(StandardLines()) + (Tokens(body) + [Close("node")]))
  {
    TokensConcat(Header() + body, Footer);
    TokensConcat(Header(), body);
    TokensConcat([Line("", Declaration), Line("", Open("node", []))], StandardLines());
    assert Tokens(Footer) == [Close("node")];
    assert Tokens([Line("", Declaration), Line("", Open("node", []))]) == [Declaration, Open("node", [])];
  }

  lemma CleanConcat(a: seq<Line>, b: seq<Line>)
    requires CleanLines(a) && CleanLines(b)
    ensures CleanLines(a + b)
  {
  }

  /** A document of the generators' shape around clean lines parses to its parts. */
  lemma DocumentBack(body: seq<Line>, interfaces: seq<InterfaceDesc>, children: seq<string>, rest: seq<Token>)
    requires CleanLines(body)
    requires ParseInterfaces(Tokens(body) + [Close("node")]) == (interfaces, rest)
    requires ParseChildren(rest) == (children, [Close("node")])
    ensures ParseDocument(Text(Header() + body + Footer)) == Some(NodeDesc([StandardDesc] + interfaces, children))
  {
    HeaderClean();
    CleanConcat(Header(), body);
    CleanConcat(Header() + body, Footer);
    LexBack(Header() + body + Footer);
    DocumentTokens(body);
    var tail := Tokens(body) + [Close("node")];
    var ts := [Declaration, Open("node", [])] + (Tokens(StandardLines()) + tail);
    assert ts[2..] == Tokens(StandardLines()) + tail;
    StandardBack(tail);
  }

  /** Reading the introspection data of a module gives exactly the interfaces shown at the
      path, in list order, with all their methods and signatures. */
  lemma ModuleRoundTrip(ifaces: seq<Interface>, path: Option<string>)
    requires CleanInterfaces(ifaces)
    ensures ParseDocument(Text(ModuleLines(ifaces, path)))
         == Some(NodeDesc([StandardDesc] + DescribeAll(ifaces, path), []))
  {
    AllInterfaceLinesClean(ifaces, path);
    InterfacesBack(ifaces, path, [Close("node")]);
    DocumentBack(AllInterfaceLines(ifaces, path), DescribeAll(ifaces, path), [], [Close("node")]);
  }

  /** What a description should tell of a method: its name, an input argument for a
      signature and an output argument for a return signature, and nothing else. */
  ghost predicate TellsMethod(d: MethodDesc, m: Method) {
    && d.name == m.name
    && (forall a :: a in d.args ==> a.name == "value" || a.name == "result")
    && (forall x, s :: ArgDesc("value", x, s) in d.args <==> x == "in" && s != "" && m.signature == Some(s))
    && (forall x, s :: ArgDesc("result", x, s) in d.args <==> x == "out" && s != "" && m.returnSignature == Some(s))
    && (forall i, j :: 0 <= i < j < |d.args| ==> d.args[i].direction == "in" && d.args[j].direction == "out")
  }

  ghost predicate Tells(d: InterfaceDesc, i: Interface) {
    && d.name == i.name && |d.methods| == |i.methods|
    && forall k :: 0 <= k < |i.methods| ==> TellsMethod(d.methods[k], i.methods[k])
  }

  /** Positions in increasing order: exactly those of the interfaces at the path, or all. */
  predicate ExactlyAt(at: seq<nat>, ifaces: seq<Interface>, path: Option<string>) {
    && (forall k :: 0 <= k < |at| ==> at[k] < |ifaces|)
    && (forall k, l :: 0 <= k < l < |at| ==> at[k] < at[l])
    && (forall i :: 0 <= i < |ifaces| ==> (i in at <==> path.None? || ifaces[i].path == path))
  }

  lemma MethodTold(m: Method)
    ensures TellsMethod(DescribeMethod(m), m)
  {
  }

  /** One description for each position, of the interface there. */
  ghost predicate TellsAll(ds: seq<InterfaceDesc>, ifaces: seq<Interface>, at: seq<nat>) {
    && |ds| == |at|
    && forall k :: 0 <= k < |at| ==> at[k] < |ifaces| && Tells(ds[k], ifaces[at[k]])
  }

  function Later(at: seq<nat>): seq<nat> {
    seq(|at|, k requires 0 <= k < |at| => at[k] + 1)
  }

  lemma LaterHolds(at: seq<nat>, i: nat)
    ensures i in Later(at) <==> 0 < i && i - 1 in at
  {
    if 0 < i && i - 1 in at {
      var k :| 0 <= k < |at| && at[k] == i - 1;
      assert Later(at)[k] == i;
    }
  }

  lemma ShiftedAt(i: Interface, rest: seq<Interface>, path: Option<string>, at: seq<nat>)
    requires ExactlyAt(at, rest, path)
    ensures ExactlyAt((if path.None? || i.path == path then [0] else []) + Later(at), [i] + rest, path)
  {
    forall k: nat { LaterHolds(at, k); }
  }

  lemma ShiftedTells(i: Interface, rest: seq<Interface>, ds: seq<InterfaceDesc>, at: seq<nat>)
    requires TellsAll(ds, rest, at)
    ensures TellsAll(ds, [i] + rest, Later(at))
    ensures forall d :: Tells(d, i) ==> TellsAll([d] + ds, [i] + rest, [0] + Later(at))
  {
  }

  lemma InterfaceTold(i: Interface)
    ensures Tells(Describe(i), i)
  {
    forall k | 0 <= k < |i.methods|
      ensures TellsMethod(Describe(i).methods[k], i.methods[k])
    {
      MethodTold(i.methods[k]);
    }
  }

  lemma {:induction false} DescribedAt(ifaces: seq<Interface>, path: Option<string>) returns (at: seq<nat>)
    ensures ExactlyAt(at, ifaces, path) && TellsAll(DescribeAll(ifaces, path), ifaces, at)
  {
    if ifaces == [] {
      return [];
    }
    var i, rest := ifaces[0], ifaces[1..];
    at := DescribedAt(rest, path);
    assert ifaces == [i] + rest;
    ShiftedAt(i, rest, path, at);
    ShiftedTells(i, rest, DescribeAll(rest, path), at);
    InterfaceTold(i);
    at := (if path.None? || i.path == path then [0] else []) + Later(at);
    assert [] + DescribeAll(rest, path) == DescribeAll(rest, path) && [] + Later(at) == Later(at);
  }

  lemma StandardTold()
    ensures StandardDesc == InterfaceDesc("org.freedesktop.DBus.Introspectable",
              [MethodDesc("Introspect", [ArgDesc("data", "out", "s")])])
  {
    assert INTROSPECTABLE == "org.freedesktop.DBus.Introspectable";
  }

  /** Told without the describing functions: behind the standard interface the document
      holds the interfaces whose path is the one asked for, in list order, none missing. */
  lemma DocumentTellsExactly(ifaces: seq<Interface>, path: Option<string>)
    returns (shown: seq<InterfaceDesc>, at: seq<nat>)
    requires CleanInterfaces(ifaces)
    ensures ExactlyAt(at, ifaces, path) && TellsAll(shown, ifaces, at)
    ensures ParseDocument(Text(ModuleLines(ifaces, path))) == Some(NodeDesc([StandardDesc] + shown, []))
  {
    ModuleRoundTrip(ifaces, path);
    at := DescribedAt(ifaces, path);
    shown := DescribeAll(ifaces, path);
  }

  /** Reading the introspection data of the root gives exactly the child nodes written. */
  lemma RootRoundTrip(names: seq<string>)
    requires forall i :: 0 <= i < |names| ==> Clean(names[i])
    ensures ParseDocument(Text(RootLines(names))) == Some(NodeDesc([StandardDesc], names))
  {
    ChildLinesClean(names);
    var ts := Tokens(ChildLines(names)) + [Close("node")];
    ChildrenBack(names, [Close("node")]);
    assert ParseInterfaces(ts) == ([], ts) by {
      if names != [] { assert ts[0] == Empty("node", [("name", names[0])]); }
    }
    DocumentBack(ChildLines(names), [], names, ts);
    assert [StandardDesc] + [] == [StandardDesc];
  }

  /** So the text determines the description: modules with the same data at a path show
      the same interfaces there. */
  lemma TextDeterminesInterfaces(a: seq<Interface>, b: seq<Interface>, path: Option<string>)
    requires CleanInterfaces(a) && CleanInterfaces(b)
    requires Text(ModuleLines(a, path)) == Text(ModuleLines(b, path))
    ensures DescribeAll(a, path) == DescribeAll(b, path)
  {
    ModuleRoundTrip(a, path);
    ModuleRoundTrip(b, path);
    assert ([StandardDesc] + DescribeAll(a, path))[1..] == DescribeAll(a, path);
    assert ([StandardDesc] + DescribeAll(b, path))[1..] == DescribeAll(b, path);
  }

  // ----- Every element is closed -----

  /** Reads tokens keeping the stack of open elements; None when an end tag does not match
      the innermost one. */
  function Nest(ts: seq<Token>, stack: seq<string>): Option<seq<string>> {
    if ts == [] then Some(stack)
    else
      match ts[0]
      case Open(name, _) => Nest(ts[1..], [name] + stack)
      case Close(name) => if stack != [] && stack[0] == name then Nest(ts[1..], stack[1..]) else None
      case _ => Nest(ts[1..], stack)
  }

  lemma {:induction false} ArgsNest(ts: seq<Token>, stack: seq<string>)
    ensures Nest(ts, stack) == Nest(ParseArgs(ts).1, stack)
  {
    if ts != [] && ParseArg(ts[0]).Some? { ArgsNest(ts[1..], stack); }
  }

  lemma {:induction false} MethodsNest(ts: seq<Token>, stack: seq<string>)
    ensures Nest(ts, stack) == Nest(ParseMethods(ts).1, stack)
    decreases |ts|
  {
    if ts != [] && NameOf(ts[0], "method").Some? {
      ParseArgsShorter(ts[1..]);
      var rest := ParseArgs(ts[1..]).1;
      if rest != [] && rest[0] == Close("method") {
        ArgsNest(ts[1..], ["method"] + stack);
        assert (["method"] + stack)[1..] == stack;
        MethodsNest(rest[1..], stack);
      }
    }
  }

  lemma {:induction false} InterfacesNest(ts: seq<Token>, stack: seq<string>)
    ensures Nest(ts, stack) == Nest(ParseInterfaces(ts).1, stack)
    decreases |ts|
  {
    if ts != [] && NameOf(ts[0], "interface").Some? {
      var rest := ParseMethods(ts[1..]).1;
      if rest != [] && rest[0] == Close("interface") {
        MethodsNest(ts[1..], ["interface"] + stack);
        assert (["interface"] + stack)[1..] == stack;
        InterfacesNest(rest[1..], stack);
      }
    }
  }

  lemma {:induction false} ChildrenNest(ts: seq<Token>, stack: seq<string>)
    ensures Nest(ts, stack) == Nest(ParseChildren(ts).1, stack)
  {
    if ts != [] && ts[0].Empty? && ts[0].name == "node" && Attribute(ts[0].attributes, "name").Some? {
      ChildrenNest(ts[1..], stack);
    }
  }

  /** In a document the parser accepts, every element that is opened is closed, in order. */
  lemma ParsedIsNested(text: string)
    requires ParseDocument(text).Some?
    ensures Lex(text).Some? && Nest(Lex(text).value, []) == Some([])
  {
    var ts := Lex(text).value;
    var stack := ["node"];
    var rest := ParseInterfaces(ts[2..]).1;
    assert ts[1..][1..] == ts[2..] && ["node"] + [] == stack;
    InterfacesNest(ts[2..], stack);
    ChildrenNest(rest, stack);
    assert [Close("node")][1..] == [] && stack[1..] == [];
  }
}
