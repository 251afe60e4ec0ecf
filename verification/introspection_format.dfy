/** The introspection data format of the D-Bus Specification: element text, a lexer for
    it, and a parser for descriptions of nodes, interfaces, methods and arguments. */
module IntrospectionFormat {
  import opened Options
  import opened Strings

  type Attributes = seq<(string, string)>

  datatype Token =
    | Declaration
    | Open(name: string, attributes: Attributes)
    | Close(name: string)
    | Empty(name: string, attributes: Attributes)

  // ----- Lexer -----

  predicate Blank(c: char) {
    c == ' ' || c == '\n'
  }

  function ParseAttributes(s: string): Option<Attributes>
    decreases |s|
  {
    if s == "" then Some([])
    else if Blank(s[0]) then ParseAttributes(s[1..])
    else
      var k := Find(s, '=');
      if k + 1 >= |s| || s[k + 1] != '"' then None
      else
        var rest := s[k + 2..];
        var v := Find(rest, '"');
        if v == |rest| then None
        else
          match ParseAttributes(rest[v + 1..])
          case Some(more) => Some([(s[..k], rest[..v])] + more)
          case None => None
  }

  /** What stands between the angle brackets. */
  function ParseTag(body: string): Option<Token> {
    if body == "" then None
    else if body[0] == '!' then Some(Declaration)
    else if body[0] == '/' then Some(Close(body[1..]))
    else
      var single := body[|body| - 1] == '/';
      var text := if single then body[..|body| - 1] else body;
      var k := Find(text, ' ');
      match ParseAttributes(text[k..])
      case Some(attributes) =>
        Some(if single then Empty(text[..k], attributes) else Open(text[..k], attributes))
      case None => None
  }

  function Lex(s: string): Option<seq<Token>>
    decreases |s|
  {
    if s == "" then Some([])
    else if Blank(s[0]) then Lex(s[1..])
    else if s[0] != '<' then None
    else
      var k := Find(s, '>');
      if k == |s| || '<' in s[1..k] then None
      else
        match (ParseTag(s[1..k]), Lex(s[k + 1..]))
        case (Some(t), Some(ts)) => Some([t] + ts)
        case _ => None
  }

  // ----- Text of tokens -----

  function AttributeText(a: Attributes): string {
    if a == [] then "" else " " + (a[0].0 + "=\"" + a[0].1 + "\"" + AttributeText(a[1..]))
  }

  /** The two strings of the document type declaration. */
  const DOCTYPE_ID := "!DOCTYPE node " + "PUBLIC \"-//" + "freedesktop//DTD " + "D-BUS Object "
                     + "Introspection 1.0" + "//EN\"\n"
  const DOCTYPE_URL := "\"http://www." + "freedesktop.org/" + "standards/dbus/" + "1.0/introspect" + ".dtd\""

  function TagBody(t: Token): string {
    match t
    case Declaration => DOCTYPE_ID + DOCTYPE_URL
    case Open(name, a) => name + AttributeText(a)
    case Close(name) => "/" + name
    case Empty(name, a) => name + AttributeText(a) + "/"
  }

  /** A token on a line of its own, indented. */
  datatype Line = Line(indent: string, token: Token)

  function LineText(l: Line): string {
    l.indent + "<" + TagBody(l.token) + ">\n"
  }

  function Text(ls: seq<Line>): string {
    if ls == [] then "" else LineText(ls[0]) + Text(ls[1..])
  }

  function Tokens(ls: seq<Line>): seq<Token> {
    seq(|ls|, i requires 0 <= i < |ls| => ls[i].token)
  }

  predicate Without(s: string, c: char) {
    c !in s
  }

  /** Free of quotes and angle brackets. */
  predicate Clean(s: string) {
    Without(s, '"') && Without(s, '<') && Without(s, '>')
  }

  predicate CleanAttributes(a: Attributes) {
    forall i :: 0 <= i < |a| ==>
      && a[i].0 != "" && Clean(a[i].0) && Without(a[i].0, '=') && !Blank(a[i].0[0])
      && Clean(a[i].1)
  }

  /** An element name. */
  predicate Word(s: string) {
    s != "" && Clean(s) && Without(s, ' ') && Without(s, '/') && s[0] != '!'
  }

  predicate CleanToken(t: Token) {
    match t
    case Declaration => true
    case Open(name, a) => Word(name) && CleanAttributes(a)
    case Close(name) => Word(name)
    case Empty(name, a) => Word(name) && CleanAttributes(a)
  }

  predicate CleanLine(l: Line) {
    CleanToken(l.token) && forall i :: 0 <= i < |l.indent| ==> Blank(l.indent[i])
  }

  // ----- The lexer reads the text back -----

  /** One attribute in front of others, piece by piece. */
  lemma AttributeShape(k: string, v: string, rest: string)
    ensures var s := k + "=\"" + v + "\"" + rest;
      && |s| == |k| + |v| + |rest| + 3
      && s[..|k|] == k && s[|k|] == '=' && s[|k| + 1] == '"' && s[|k| + 2..] == v + "\"" + rest
  {
    var head := k + "=\"";
    assert |head| == |k| + 2 && head[..|k|] == k && head[|k|] == '=' && head[|k| + 1] == '"';
    var tail := v + "\"" + rest;
    assert k + "=\"" + v + "\"" + rest == head + tail;
  }

  lemma ValueShape(v: string, rest: string)
    requires Without(v, '"')
    ensures var t := v + "\"" + rest;
      && Find(t, '"') == |v| && |v| < |t| && t[..|v|] == v && t[|v| + 1..] == rest
  {
    FindIs(v + "\"" + rest, '"', |v|);
  }

  lemma AttributeBack(k: string, v: string, rest: string)
    requires k != "" && !Blank(k[0]) && Without(k, '=') && Without(v, '"') && ParseAttributes(rest).Some?
    ensures ParseAttributes(k + "=\"" + v + "\"" + rest) == Some([(k, v)] + ParseAttributes(rest).value)
  {
    AttributeShape(k, v, rest);
    var s := k + "=\"" + v + "\"" + rest;
    FindIs(s, '=', |k|);
    assert s[0] == s[..|k|][0];
    ValueShape(v, rest);
  }

  lemma SkipOneBlank(s: string)
    ensures ParseAttributes(" " + s) == ParseAttributes(s)
  {
    assert (" " + s)[1..] == s;
  }

  lemma {:induction false} AttributesBack(a: Attributes)
    requires CleanAttributes(a)
    ensures ParseAttributes(AttributeText(a)) == Some(a)
    decreases |a|
  {
    if a != [] {
      var k, v, rest := a[0].0, a[0].1, AttributeText(a[1..]);
      AttributesBack(a[1..]);
      AttributeBack(k, v, rest);
      SkipOneBlank(k + "=\"" + v + "\"" + rest);
      assert a == [a[0]] + a[1..];
    }
  }

  lemma {:induction false} AttributeTextClean(a: Attributes)
    requires CleanAttributes(a)
    ensures Without(AttributeText(a), '<') && Without(AttributeText(a), '>')
    ensures var t := AttributeText(a); a != [] ==> t != "" && t[0] == ' ' && t[|t| - 1] == '"'
    decreases |a|
  {
    if a != [] {
      AttributeTextClean(a[1..]);
      if a[1..] != [] {
        var t := AttributeText(a[1..]);
        assert AttributeText(a)[|AttributeText(a)| - 1] == t[|t| - 1];
      }
    }
  }

  lemma Ends(a: string, b: string)
    requires a != ""
    ensures (a + b)[0] == a[0] && (a + b)[..|a|] == a && (a + b)[|a|..] == b
    ensures (a + b)[|a + b| - 1] == if b == "" then a[|a| - 1] else b[|b| - 1]
  {
  }

  lemma NameEnds(name: string, at: string)
    requires Without(name, ' ') && (at != "" ==> at[0] == ' ')
    ensures Find(name + at, ' ') == |name|
  {
    if at == "" {
      assert name + at == name;
      FindNone(name, ' ');
    } else {
      assert name + at == name + [' '] + at[1..];
      FindAt(name, ' ', at[1..]);
    }
  }

  /** Where the attributes begin, and how the text of an element ends. */
  lemma ElementShape(name: string, a: Attributes, at: string, text: string)
    requires Word(name) && CleanAttributes(a) && at == AttributeText(a) && text == name + at
    ensures Find(text, ' ') == |name|
    ensures text != "" && text[0] == name[0] && text[|text| - 1] != '/'
    ensures text[..|name|] == name && text[|name|..] == at
  {
    AttributeTextClean(a);
    Ends(name, at);
    NameEnds(name, at);
  }

  lemma ElementBack(name: string, a: Attributes)
    requires Word(name) && CleanAttributes(a)
    ensures ParseTag(name + AttributeText(a)) == Some(Open(name, a))
    ensures ParseTag(name + AttributeText(a) + "/") == Some(Empty(name, a))
  {
    var text := name + AttributeText(a);
    ElementShape(name, a, AttributeText(a), text);
    AttributesBack(a);
    assert (text + "/")[..|text + "/"| - 1] == text;
  }

  predicate NoBrackets(s: string) {
    Without(s, '<') && Without(s, '>')
  }

  lemma DoctypeIdClean()
    ensures NoBrackets(DOCTYPE_ID)
  {
    assert NoBrackets("!DOCTYPE node ");
    assert NoBrackets("PUBLIC \"-//");
    assert NoBrackets("freedesktop//DTD ");
    assert NoBrackets("D-BUS Object ");
    assert NoBrackets("Introspection 1.0");
    assert NoBrackets("//EN\"\n");
  }

  lemma DoctypeUrlClean()
    ensures NoBrackets(DOCTYPE_URL)
  {
    assert NoBrackets("\"http://www.");
    assert NoBrackets("freedesktop.org/");
    assert NoBrackets("standards/dbus/");
    assert NoBrackets("1.0/introspect");
    assert NoBrackets(".dtd\"");
  }

  lemma DoctypeBack()
    ensures ParseTag(TagBody(Declaration)) == Some(Declaration)
    ensures NoBrackets(TagBody(Declaration))
  {
    DoctypeIdClean();
    DoctypeUrlClean();
    assert DOCTYPE_ID[0] == '!';
  }

  lemma TagBack(t: Token)
    requires CleanToken(t)
    ensures ParseTag(TagBody(t)) == Some(t)
    ensures Without(TagBody(t), '<') && Without(TagBody(t), '>')
  {
    match t
    case Declaration => DoctypeBack();
    case Open(name, a) => ElementBack(name, a); AttributeTextClean(a);
    case Close(name) => assert ("/" + name)[1..] == name;
    case Empty(name, a) => ElementBack(name, a); AttributeTextClean(a);
  }

  lemma {:induction false} SkipBlanks(b: string, s: string)
    requires forall i :: 0 <= i < |b| ==> Blank(b[i])
    ensures Lex(b + s) == Lex(s)
  {
    if b == "" {
      assert b + s == s;
    } else {
      assert (b + s)[1..] == b[1..] + s;
      SkipBlanks(b[1..], s);
    }
  }

  lemma LexTag(body: string, rest: string)
    requires Without(body, '<') && Without(body, '>') && ParseTag(body).Some? && Lex(rest).Some?
    ensures Lex("<" + body + ">" + rest) == Some([ParseTag(body).value] + Lex(rest).value)
  {
    var s := "<" + body + ">" + rest;
    assert s == ("<" + body) + ['>'] + rest;
    FindAt("<" + body, '>', rest);
    assert s[1..|body| + 1] == body && s[|body| + 2..] == rest;
  }

  lemma LineShape(indent: string, body: string, rest: string)
    ensures indent + "<" + body + ">\n" + rest == indent + ("<" + body + ">" + ("\n" + rest))
  {
    assert ">\n" == ">" + "\n";
  }

  lemma LineBack(l: Line, rest: string)
    requires CleanLine(l) && Lex(rest).Some?
    ensures Lex(LineText(l) + rest) == Some([l.token] + Lex(rest).value)
  {
    var body := TagBody(l.token);
    TagBack(l.token);
    SkipBlanks("\n", rest);
    LexTag(body, "\n" + rest);
    SkipBlanks(l.indent, "<" + body + ">" + ("\n" + rest));
    LineShape(l.indent, body, rest);
  }

  predicate CleanLines(ls: seq<Line>) {
    forall i :: 0 <= i < |ls| ==> CleanLine(ls[i])
  }

  lemma LinesUncons(ls: seq<Line>)
    requires CleanLines(ls) && ls != []
    ensures CleanLine(ls[0]) && CleanLines(ls[1..])
    ensures Text(ls) == LineText(ls[0]) + Text(ls[1..])
    ensures Tokens(ls) == [ls[0].token] + Tokens(ls[1..])
  {
  }

  /** Lexing the text of any clean lines gives back their tokens. */
  lemma {:induction false} LexBack(ls: seq<Line>)
    requires CleanLines(ls)
    ensures Lex(Text(ls)) == Some(Tokens(ls))
  {
    if ls == [] {
      assert Text(ls) == "" && Tokens(ls) == [];
    } else {
      LinesUncons(ls);
      LexBack(ls[1..]);
      LineBack(ls[0], Text(ls[1..]));
    }
  }

  lemma {:induction false} TextConcat(a: seq<Line>, b: seq<Line>)
    ensures Text(a + b) == Text(a) + Text(b)
  {
    if a == [] {
      assert a + b == b;
    } else {
      assert (a + b)[1..] == a[1..] + b;
      TextConcat(a[1..], b);
    }
  }

  lemma TokensConcat(a: seq<Line>, b: seq<Line>)
    ensures Tokens(a + b) == Tokens(a) + Tokens(b)
  {
  }
}
