/** The generators of introspection data, appending piece by piece, and the choice made by
    handle_introspect (src/dbus-server/module-lib.c, src/dbus-server/server.c). */
module IntrospectionGenerator {
  import opened Options
  import opened ModuleLib
  import opened IntrospectionFormat
  import opened Introspection

  // ----- The literal pieces of the generators spell out lines -----

  lemma NameText(name: string)
    ensures AttributeText([("name", name)]) == " name=\"" + name + "\""
  {
    assert [("name", name)][1..] == [];
    assert "name" + "=\"" + name + "\"" + "" == "name=\"" + (name + "\"");
    assert " " + ("name=\"" + (name + "\"")) == " name=\"" + (name + "\"");
  }

  lemma Rearranged(indent: string, open: string, element: string, head: string, name: string)
    requires indent + "<" + element + " name=\"" == open
    requires head == element + (" name=\"" + name + "\"")
    ensures indent + "<" + head + ">\n" == open + name + "\">\n"
  {
    assert "\"" + ">\n" == "\">\n";
    assert indent + "<" + head == open + name + "\"";
  }

  lemma MethodOpenText(name: string)
    ensures LineText(OpenLine(METHOD_INDENT, "method", name)) == "    <method name=\"" + name + "\">\n"
  {
    NameText(name);
    assert "    " + "<" + "method" + " name=\"" == "    <method name=\"";
    Rearranged(METHOD_INDENT, "    <method name=\"", "method", TagBody(OpenLine(METHOD_INDENT, "method", name).token), name);
  }

  lemma InterfaceOpenText(name: string)
    ensures LineText(OpenLine(INTERFACE_INDENT, "interface", name)) == "  <interface name=\"" + name + "\">\n"
  {
    NameText(name);
    assert "  " + "<" + "interface" + " name=\"" == "  <interface name=\"";
    Rearranged(INTERFACE_INDENT, "  <interface name=\"", "interface",
               TagBody(OpenLine(INTERFACE_INDENT, "interface", name).token), name);
  }

  lemma CloseTexts()
    ensures LineText(Line(METHOD_INDENT, Close("method"))) == "    </method>\n"
    ensures LineText(Line(INTERFACE_INDENT, Close("interface"))) == "  </interface>\n"
    ensures LineText(Line("", Close("node"))) == "</node>\n"
  {
    assert "    " + "<" + "/method" + ">\n" == "    </method>\n";
    assert "/" + "method" == "/method";
    assert "  " + "<" + "/interface" + ">\n" == "  </interface>\n";
    assert "/" + "interface" == "/interface";
    assert "" + "<" + "/node" + ">\n" == "</node>\n";
    assert "/" + "node" == "/node";
  }

  lemma ChildText(name: string)
    ensures LineText(Line(INTERFACE_INDENT, Empty("node", [("name", name)]))) == "  <node name=\"" + name + "\"/>\n"
  {
    NameText(name);
    assert "  " + "<" + "node" + " name=\"" == "  <node name=\"";
    assert "\"" + "/" + ">\n" == "\"/>\n";
    var body := "node" + (" name=\"" + name + "\"") + "/";
    assert "  " + "<" + body == "  <node name=\"" + name + "\"" + "/";
  }

  lemma ArgText(name: string, direction: string, signature: string, open: string)
    requires open == "      <arg name=\"" + name + "\" direction=\"" + direction + "\" type=\""
    ensures LineText(ArgLine(name, direction, signature)) == open + signature + "\"/>\n"
  {
    var a := [("name", name), ("direction", direction), ("type", signature)];
    assert a[1..] == [("direction", direction), ("type", signature)];
    assert a[1..][1..] == [("type", signature)] && a[1..][1..][1..] == [];
    var third := " " + ("type" + "=\"" + signature + "\"" + "");
    assert AttributeText(a[1..][1..]) == third;
    var second := " " + ("direction" + "=\"" + direction + "\"" + third);
    assert AttributeText(a[1..]) == second;
    var first := " " + ("name" + "=\"" + name + "\"" + second);
    assert AttributeText(a) == first;
    ThirdShape(signature);
    SecondShape(direction, third, signature);
    FirstShape(name, second, direction, signature);
    FinalShape(open, name, direction, signature, first);
  }

  lemma ThirdShape(signature: string)
    ensures " " + ("type" + "=\"" + signature + "\"" + "") == " type=\"" + signature + "\""
  {
    assert " " + ("type" + "=\"") == " type=\"";
    assert " " + ("type" + "=\"" + signature + "\"" + "") == (" " + ("type" + "=\"")) + signature + "\"";
  }

  lemma SecondShape(direction: string, third: string, signature: string)
    requires third == " type=\"" + signature + "\""
    ensures " " + ("direction" + "=\"" + direction + "\"" + third)
         == " direction=\"" + direction + "\" type=\"" + signature + "\""
  {
    assert " " + ("direction" + "=\"") == " direction=\"";
    assert "\"" + " type=\"" == "\" type=\"";
    assert " " + ("direction" + "=\"" + direction + "\"" + third)
        == (" " + ("direction" + "=\"")) + direction + ("\"" + " type=\"") + signature + "\"";
  }

  lemma FirstShape(name: string, second: string, direction: string, signature: string)
    requires second == " direction=\"" + direction + "\" type=\"" + signature + "\""
    ensures " " + ("name" + "=\"" + name + "\"" + second)
         == " name=\"" + name + "\" direction=\"" + direction + "\" type=\"" + signature + "\""
  {
    assert " " + ("name" + "=\"") == " name=\"";
    assert "\"" + " direction=\"" == "\" direction=\"";
    assert " " + ("name" + "=\"" + name + "\"" + second)
        == (" " + ("name" + "=\"")) + name + ("\"" + " direction=\"") + direction + "\" type=\"" + signature + "\"";
  }

  lemma FinalShape(open: string, name: string, direction: string, signature: string, first: string)
    requires open == "      <arg name=\"" + name + "\" direction=\"" + direction + "\" type=\""
    requires first == " name=\"" + name + "\" direction=\"" + direction + "\" type=\"" + signature + "\""
    ensures "      " + "<" + ("arg" + first + "/") + ">\n" == open + signature + "\"/>\n"
  {
    assert "      " + "<" + "arg" + " name=\"" == "      <arg name=\"";
    assert "\"" + "/" + ">\n" == "\"/>\n";
    var mid := name + "\" direction=\"" + direction + "\" type=\"" + signature;
    assert first == " name=\"" + mid + "\"";
    assert "      " + "<" + ("arg" + first + "/") + ">\n"
        == ("      " + "<" + "arg" + " name=\"") + mid + ("\"" + "/" + ">\n");
    assert open + signature == "      <arg name=\"" + mid;
  }

  lemma TextSnoc(ls: seq<Line>, l: Line)
    ensures Text(ls + [l]) == Text(ls) + LineText(l)
  {
    TextConcat(ls, [l]);
    assert [l][1..] == [] && LineText(l) + "" == LineText(l);
  }

  lemma {:induction false} AllMethodLinesConcat(a: seq<Method>, b: seq<Method>)
    ensures AllMethodLines(a + b) == AllMethodLines(a) + AllMethodLines(b)
  {
    if a == [] {
      assert a + b == b;
    } else {
      assert (a + b)[1..] == a[1..] + b;
      AllMethodLinesConcat(a[1..], b);
    }
  }

  lemma {:induction false} AllInterfaceLinesConcat(a: seq<Interface>, b: seq<Interface>, path: Option<string>)
    ensures AllInterfaceLines(a + b, path) == AllInterfaceLines(a, path) + AllInterfaceLines(b, path)
  {
    if a == [] {
      assert a + b == b;
    } else {
      assert (a + b)[1..] == a[1..] + b;
      AllInterfaceLinesConcat(a[1..], b, path);
      Regroup(ShownLines(a[0], path), AllInterfaceLines(a[1..], path), AllInterfaceLines(b, path));
    }
  }

  lemma Regroup<T>(a: seq<T>, b: seq<T>, c: seq<T>)
    ensures a + (b + c) == a + b + c
  {
  }

  /** One more method: its lines come at the end. */
  lemma MethodsSnoc(ms: seq<Method>, n: nat)
    requires n < |ms|
    ensures AllMethodLines(ms[..n + 1]) == AllMethodLines(ms[..n]) + MethodLines(ms[n])
  {
    assert ms[..n + 1] == ms[..n] + [ms[n]];
    AllMethodLinesConcat(ms[..n], [ms[n]]);
    assert [ms[n]][1..] == [] && MethodLines(ms[n]) + [] == MethodLines(ms[n]);
  }

  lemma InterfacesSnoc(ifaces: seq<Interface>, n: nat, path: Option<string>)
    requires n < |ifaces|
    ensures AllInterfaceLines(ifaces[..n + 1], path)
         == AllInterfaceLines(ifaces[..n], path) + ShownLines(ifaces[n], path)
  {
    assert ifaces[..n + 1] == ifaces[..n] + [ifaces[n]];
    AllInterfaceLinesConcat(ifaces[..n], [ifaces[n]], path);
    assert [ifaces[n]][1..] == [] && ShownLines(ifaces[n], path) + [] == ShownLines(ifaces[n], path);
  }

  // ----- Generators: each run of str_append calls that completes a line -----

  /** str_append, with memory available; a null source leaves the text as it is. */
  function StrAppend(dest: string, src: Option<string>): string {
    match src
    case Some(s) => dest + s
    case None => dest
  }

  method AppendParts(xml: string, open: string, name: string, close: string) returns (text: string)
    ensures text == xml + (open + name + close)
  {
    text := StrAppend(xml, Some(open));
    text := StrAppend(text, Some(name));
    text := StrAppend(text, Some(close));
  }

  /** The str_append calls that write one line around a name. */
  method AppendNamed(xml: string, open: string, name: string, close: string, ghost lines: seq<Line>, ghost l: Line)
    returns (text: string)
    requires xml == Text(lines) && LineText(l) == open + name + close
    ensures text == Text(lines + [l])
  {
    TextSnoc(lines, l);
    text := AppendParts(xml, open, name, close);
  }

  /** A line without a name in it. */
  method AppendFixed(xml: string, fixed: string, ghost lines: seq<Line>, ghost l: Line) returns (text: string)
    requires xml == Text(lines) && LineText(l) == fixed
    ensures text == Text(lines + [l])
  {
    TextSnoc(lines, l);
    text := StrAppend(xml, Some(fixed));
  }

  method AppendInterfaceStart(xml: string, name: string, ghost lines: seq<Line>) returns (text: string)
    requires xml == Text(lines)
    ensures text == Text(lines + [OpenLine(INTERFACE_INDENT, "interface", name)])
  {
    InterfaceOpenText(name);
    text := AppendNamed(xml, "  <interface name=\"", name, "\">\n", lines, OpenLine(INTERFACE_INDENT, "interface", name));
  }

  method AppendMethodStart(xml: string, name: string, ghost lines: seq<Line>) returns (text: string)
    requires xml == Text(lines)
    ensures text == Text(lines + [OpenLine(METHOD_INDENT, "method", name)])
  {
    MethodOpenText(name);
    text := AppendNamed(xml, "    <method name=\"", name, "\">\n", lines, OpenLine(METHOD_INDENT, "method", name));
  }

  method AppendArg(xml: string, open: string, name: string, direction: string, signature: string,
                   ghost lines: seq<Line>)
    returns (text: string)
    requires xml == Text(lines)
    requires open == "      <arg name=\"" + name + "\" direction=\"" + direction + "\" type=\""
    ensures text == Text(lines + [ArgLine(name, direction, signature)])
  {
    ArgText(name, direction, signature, open);
    text := AppendNamed(xml, open, signature, "\"/>\n", lines, ArgLine(name, direction, signature));
  }

  method AppendMethodEnd(xml: string, ghost lines: seq<Line>) returns (text: string)
    requires xml == Text(lines)
    ensures text == Text(lines + [Line(METHOD_INDENT, Close("method"))])
  {
    CloseTexts();
    text := AppendFixed(xml, "    </method>\n", lines, Line(METHOD_INDENT, Close("method")));
  }

  method AppendInterfaceEnd(xml: string, ghost lines: seq<Line>) returns (text: string)
    requires xml == Text(lines)
    ensures text == Text(lines + [Line(INTERFACE_INDENT, Close("interface"))])
  {
    CloseTexts();
    text := AppendFixed(xml, "  </interface>\n", lines, Line(INTERFACE_INDENT, Close("interface")));
  }

  method AppendNodeEnd(xml: string, ghost lines: seq<Line>) returns (text: string)
    requires xml == Text(lines)
    ensures text == Text(lines + Footer)
  {
    CloseTexts();
    text := AppendFixed(xml, "</node>\n", lines, Line("", Close("node")));
  }

  method AppendChild(xml: string, name: string, ghost lines: seq<Line>) returns (text: string)
    requires xml == Text(lines)
    ensures text == Text(lines + [Line(INTERFACE_INDENT, Empty("node", [("name", name)]))])
  {
    ChildText(name);
    text := AppendNamed(xml, "  <node name=\"", name, "\"/>\n", lines,
                        Line(INTERFACE_INDENT, Empty("node", [("name", name)])));
  }

  const IN_OPEN := "      <arg name=\"" + "value" + "\" direction=\"" + "in" + "\" type=\""
  const OUT_OPEN := "      <arg name=\"" + "result" + "\" direction=\"" + "out" + "\" type=\""
  const DATA_OPEN := "      <arg name=\"" + "data" + "\" direction=\"" + "out" + "\" type=\""

  lemma MethodLinesGrouped(lines: seq<Line>, open: Line, ins: seq<Line>, outs: seq<Line>, close: Line)
    ensures lines + [open] + ins + outs + [close] == lines + ([open] + (ins + outs) + [close])
  {
  }

  /** The part of the interface generator that writes one method. */
  method AppendMethod(xml: string, m: Method, ghost lines: seq<Line>) returns (text: string)
    requires xml == Text(lines)
    ensures text == Text(lines + MethodLines(m))
  {
    ghost var open := OpenLine(METHOD_INDENT, "method", m.name);
    ghost var close := Line(METHOD_INDENT, Close("method"));
    text := AppendMethodStart(xml, m.name, lines);
    if m.signature.Some? && m.signature.value != "" {
      text := AppendArg(text, IN_OPEN, "value", "in", m.signature.value, lines + [open]);
    } else {
      assert lines + [open] + [] == lines + [open];
    }
    assert text == Text(lines + [open] + InArg(m));
    if m.returnSignature.Some? && m.returnSignature.value != "" {
      text := AppendArg(text, OUT_OPEN, "result", "out", m.returnSignature.value, lines + [open] + InArg(m));
    } else {
      assert lines + [open] + InArg(m) + [] == lines + [open] + InArg(m);
    }
    text := AppendMethodEnd(text, lines + [open] + InArg(m) + OutArg(m));
    MethodLinesGrouped(lines, open, InArg(m), OutArg(m), close);
  }

  /** generate_interface_introspection: nothing for an interface of another path. */
  method GenerateInterface(i: Interface, path: Option<string>) returns (xml: Option<string>)
    ensures xml == if Shown(i, path) then Some(Text(InterfaceLines(i))) else None
  {
    if path.None? || (i.path.Some? && i.path.value == path.value) {
      ghost var open := OpenLine(INTERFACE_INDENT, "interface", i.name);
      var text := AppendInterfaceStart("", i.name, []);
      assert [] + [open] == [open] && [open] + AllMethodLines([]) == [open];
      assert i.methods[..0] == [];
      var n := 0;
      while n < |i.methods|
        invariant n <= |i.methods|
        invariant text == Text([open] + AllMethodLines(i.methods[..n]))
      {
        text := AppendMethod(text, i.methods[n], [open] + AllMethodLines(i.methods[..n]));
        MethodsSnoc(i.methods, n);
        Regroup([open], AllMethodLines(i.methods[..n]), MethodLines(i.methods[n]));
        n := n + 1;
      }
      assert i.methods[..n] == i.methods;
      text := AppendInterfaceEnd(text, [open] + AllMethodLines(i.methods));
      return Some(text);
    }
    return None;
  }

  method AppendDeclaration() returns (xml: string)
    ensures xml == Text([Line("", Declaration)])
  {
    xml := "<" + DOCTYPE_ID;
    xml := xml + (DOCTYPE_URL + ">\n");
    TextSnoc([], Line("", Declaration));
    assert [] + [Line("", Declaration)] == [Line("", Declaration)];
    assert "" + "<" == "<";
    assert xml == "<" + (DOCTYPE_ID + DOCTYPE_URL) + ">\n";
  }

  lemma NodeOpenText()
    ensures LineText(Line("", Open("node", []))) == "<node>\n"
  {
    assert "node" + "" == "node";
    assert "" + "<" + "node" + ">\n" == "<node>\n";
  }

  method AppendNodeStart(xml: string, ghost lines: seq<Line>) returns (text: string)
    requires xml == Text(lines)
    ensures text == Text(lines + [Line("", Open("node", []))])
  {
    NodeOpenText();
    text := AppendFixed(xml, "<node>\n", lines, Line("", Open("node", [])));
  }

  /** What every document starts with. */
  method GenerateHeader() returns (xml: string)
    ensures xml == Text(Header())
  {
    ghost var l0 := [Line("", Declaration)];
    xml := AppendDeclaration();
    xml := AppendNodeStart(xml, l0);
    ghost var l1 := l0 + [Line("", Open("node", []))];
    xml := AppendInterfaceStart(xml, INTROSPECTABLE, l1);
    ghost var l2 := l1 + [OpenLine(INTERFACE_INDENT, "interface", INTROSPECTABLE)];
    xml := AppendMethodStart(xml, "Introspect", l2);
    ghost var l3 := l2 + [OpenLine(METHOD_INDENT, "method", "Introspect")];
    xml := AppendArg(xml, DATA_OPEN, "data", "out", "s", l3);
    ghost var l4 := l3 + [ArgLine("data", "out", "s")];
    xml := AppendMethodEnd(xml, l4);
    ghost var l5 := l4 + [Line(METHOD_INDENT, Close("method"))];
    xml := AppendInterfaceEnd(xml, l5);
    assert l5 + [Line(INTERFACE_INDENT, Close("interface"))] == Header();
  }

  method AppendInterface(xml: string, i: Interface, path: Option<string>, ghost lines: seq<Line>)
    returns (text: string)
    requires xml == Text(lines)
    ensures text == Text(lines + ShownLines(i, path))
  {
    var piece := GenerateInterface(i, path);
    text := StrAppend(xml, piece);
    TextConcat(lines, ShownLines(i, path));
    assert !Shown(i, path) ==> Text([]) == "" && xml + "" == xml;
  }

  lemma ShownStep(lines: seq<Line>, views: seq<Interface>, n: nat, path: Option<string>)
    requires n < |views|
    ensures lines + AllInterfaceLines(views[..n], path) + ShownLines(views[n], path)
         == lines + AllInterfaceLines(views[..n + 1], path)
  {
    InterfacesSnoc(views, n, path);
    Regroup(lines, AllInterfaceLines(views[..n], path), ShownLines(views[n], path));
  }

  /** The loop of the module generator over the interfaces. */
  method AppendInterfaces(xml: string, m: ModuleNode, path: Option<string>, ghost lines: seq<Line>)
    returns (text: string)
    requires xml == Text(lines)
    ensures text == Text(lines + AllInterfaceLines(m.Views(), path))
  {
    ghost var views := m.Views();
    text := xml;
    assert lines + AllInterfaceLines(views[..0], path) == lines;
    var n := 0;
    while n < |m.interfaces|
      invariant n <= |m.interfaces|
      invariant text == Text(lines + AllInterfaceLines(views[..n], path))
    {
      var view := m.interfaces[n].View();
      assert view == views[n];
      text := AppendInterface(text, view, path, lines + AllInterfaceLines(views[..n], path));
      ShownStep(lines, views, n, path);
      n := n + 1;
    }
    assert views[..n] == views;
  }

  /** What the generator finds in a module; there may be none. */
  function ViewsOf(m: ModuleNode?): seq<Interface>
    reads m, if m == null then {} else set i | i in m.interfaces
  {
    if m == null then [] else m.Views()
  }

  /** What follows the header of a module's document. */
  method AppendBody(xml: string, m: ModuleNode?, path: Option<string>, ghost views: seq<Interface>,
                    ghost header: seq<Line>, ghost all: seq<Line>)
    returns (text: string)
    requires views == ViewsOf(m) && xml == Text(header) && all == header + AllInterfaceLines(views, path) + Footer
    ensures text == Text(all)
  {
    text := xml;
    if m != null {
      text := AppendInterfaces(xml, m, path, header);
    } else {
      assert header + AllInterfaceLines([], path) == header;
    }
    text := AppendNodeEnd(text, header + AllInterfaceLines(views, path));
  }

  /** module_generate_introspection_xml, where `views` names what the module holds. */
  method GenerateModule(m: ModuleNode?, path: Option<string>, ghost views: seq<Interface>) returns (xml: string)
    requires views == ViewsOf(m)
    ensures xml == Text(ModuleLines(views, path))
  {
    var header := GenerateHeader();
    xml := AppendBody(header, m, path, views, Header(), ModuleLines(views, path));
  }
}
