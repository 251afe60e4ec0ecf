/** The logger configuration file: how a line is taken apart and what a printed
    configuration is read back as (src/config.c). */
module ConfigFormat {
  import opened Options
  import opened Strings
  import opened LogRing

  const NUL := '\0'
  const LINE_SIZE: nat := 256
  const PATH_SIZE: nat := 256

  datatype Config = Config(level: Level, useColors: bool, logToFile: bool, logToConsole: bool,
                           asyncEnabled: bool, flushImmediately: bool, path: string)

  // ----- Strings of C -----

  /** isspace in the C locale. */
  predicate Space(c: char) {
    c == ' ' || c == '\t' || c == '\n' || c == '\U{000B}' || c == '\U{000C}' || c == '\r'
  }

  lemma SpaceCodes(c: char)
    ensures Space(c) <==> c as int in {9, 10, 11, 12, 13, 32}
  {
  }

  predicate AllSpace(t: string) {
    forall i :: 0 <= i < |t| ==> Space(t[i])
  }

  function RightTrim(t: string): string {
    if t == "" || !Space(t[|t| - 1]) then t else RightTrim(t[..|t| - 1])
  }

  /** What the caller of trim_string sees: trailing blanks go, leading ones stay, and a
      string of blanks is left as it is. */
  function Trimmed(t: string): string {
    if AllSpace(t) then t else RightTrim(t)
  }

  function SkipLeading(t: string, c: char): (u: string)
    ensures |u| <= |t| && u == t[|t| - |u|..]
    ensures u != "" ==> u[0] != c
  {
    if t == "" || t[0] != c then t else SkipLeading(t[1..], c)
  }

  /** The token a string starts with, and what is left behind the delimiter. */
  function Cut(u: string, c: char): (Option<string>, string) {
    if u == "" then (None, "")
    else if Find(u, c) < |u| then (Some(u[..Find(u, c)]), u[Find(u, c) + 1..])
    else (Some(u), "")
  }

  /** strtok with one delimiter: the token, and where the next call goes on. */
  function Token(t: string, c: char): (Option<string>, string) {
    Cut(SkipLeading(t, c), c)
  }

  // ----- A line -----

  datatype Key = KLevel | KColors | KFile | KConsole | KPath | KAsync | KFlush

  function KeyText(k: Key): string {
    match k
    case KLevel => "log_level"
    case KColors => "use_colors"
    case KFile => "log_to_file"
    case KConsole => "log_to_console"
    case KPath => "log_file_path"
    case KAsync => "async_enabled"
    case KFlush => "flush_immediately"
  }

  function ParseKey(s: string): Option<Key> {
    if s == "log_level" then Some(KLevel)
    else if s == "use_colors" then Some(KColors)
    else if s == "log_to_file" then Some(KFile)
    else if s == "log_to_console" then Some(KConsole)
    else if s == "log_file_path" then Some(KPath)
    else if s == "async_enabled" then Some(KAsync)
    else if s == "flush_immediately" then Some(KFlush)
    else None
  }

  function ParseLevel(s: string): Level {
    if s == "debug" then Debug
    else if s == "info" then Info
    else if s == "warn" then Warn
    else if s == "error" then Error
    else if s == "fatal" then Fatal
    else Info
  }

  predicate ParseBoolean(s: string) {
    s == "true" || s == "yes" || s == "1" || s == "on"
  }

  /** strncpy into the path array, whose last byte stays zero. */
  function CopiedPath(s: string): string {
    if |s| < PATH_SIZE then s else s[..PATH_SIZE - 1]
  }

  function Assign(c: Config, k: Key, value: string): Config {
    match k
    case KLevel => c.(level := ParseLevel(value))
    case KColors => c.(useColors := ParseBoolean(value))
    case KFile => c.(logToFile := ParseBoolean(value))
    case KConsole => c.(logToConsole := ParseBoolean(value))
    case KPath => c.(path := CopiedPath(value))
    case KAsync => c.(asyncEnabled := ParseBoolean(value))
    case KFlush => c.(flushImmediately := ParseBoolean(value))
  }

  predicate Skipped(t: string) {
    t != "" && (t[0] == '#' || t[0] == '\n' || t[0] == '\r')
  }

  /** What one line does to the configuration. */
  function ApplyLine(c: Config, t: string): Config {
    if Skipped(t) then c
    else
      var (key, rest) := Token(t, '=');
      var (value, _) := Token(rest, '\n');
      if key.None? || value.None? then c
      else
        match ParseKey(Trimmed(key.value))
        case Some(k) => Assign(c, k, Trimmed(value.value))
        case None => c
  }

  // ----- A file -----

  /** What fgets takes: a line with its newline, or as much as the array holds. */
  function Chunk(s: string): (t: string)
    ensures t <= s && |t| < LINE_SIZE && (s != "" ==> t != "")
  {
    var k := Find(s, '\n');
    if k + 1 < LINE_SIZE then (if k < |s| then s[..k + 1] else s)
    else s[..LINE_SIZE - 1]
  }

  /** The string a buffer with these characters holds for C. */
  function Visible(t: string): string {
    t[..Find(t, NUL)]
  }

  function ReadAll(c: Config, s: string): Config
    decreases |s|
  {
    if s == "" then c else ReadAll(ApplyLine(c, Visible(Chunk(s))), s[|Chunk(s)|..])
  }

  // ----- Printing a configuration -----

  datatype FileLine = Comment(text: string) | EmptyLine | Entry(key: Key)

  function LevelText(l: Level): string {
    match l
    case Debug => "debug"
    case Info => "info"
    case Warn => "warn"
    case Error => "error"
    case Fatal => "fatal"
  }

  function BooleanText(b: bool): string {
    if b then "true" else "false"
  }

  function ValueText(c: Config, k: Key): string {
    match k
    case KLevel => LevelText(c.level)
    case KColors => BooleanText(c.useColors)
    case KFile => BooleanText(c.logToFile)
    case KConsole => BooleanText(c.logToConsole)
    case KPath => c.path
    case KAsync => BooleanText(c.asyncEnabled)
    case KFlush => BooleanText(c.flushImmediately)
  }

  function Printed(c: Config, l: FileLine): string {
    match l
    case Comment(text) => "#" + text
    case EmptyLine => ""
    case Entry(k) => KeyText(k) + "=" + ValueText(c, k)
  }

  function Print(c: Config, ls: seq<FileLine>): string {
    if ls == [] then "" else Printed(c, ls[0]) + "\n" + Print(c, ls[1..])
  }

  /** A path the format can carry. */
  predicate PrintablePath(p: string) {
    p != "" && '\n' !in p && NUL !in p && !Space(p[|p| - 1])
  }

  predicate PrintableLine(c: Config, l: FileLine) {
    |Printed(c, l)| < LINE_SIZE - 1 && (l.Comment? ==> '\n' !in l.text)
  }

  /** `d` with the field of `k` taken from `c`. */
  function TakeField(d: Config, c: Config, k: Key): Config {
    match k
    case KLevel => d.(level := c.level)
    case KColors => d.(useColors := c.useColors)
    case KFile => d.(logToFile := c.logToFile)
    case KConsole => d.(logToConsole := c.logToConsole)
    case KPath => d.(path := c.path)
    case KAsync => d.(asyncEnabled := c.asyncEnabled)
    case KFlush => d.(flushImmediately := c.flushImmediately)
  }

  // ----- Reading back -----

  lemma KeyReadsBack(k: Key)
    ensures ParseKey(KeyText(k)) == Some(k)
    ensures var t := KeyText(k); t != "" && '=' !in t && NUL !in t && !Space(t[|t| - 1]) && !Skipped(t) && t[0] != '='
  {
  }

  lemma ValueReadsBack(d: Config, c: Config, k: Key)
    requires PrintablePath(c.path) && (k.KPath? ==> |c.path| < PATH_SIZE)
    ensures Assign(d, k, ValueText(c, k)) == TakeField(d, c, k)
    ensures PrintablePath(ValueText(c, k))
  {
  }

  lemma TrimmedKeeps(t: string)
    requires t != "" && !Space(t[|t| - 1])
    ensures Trimmed(t) == t
  {
  }

  lemma TokenAt(a: string, c: char, b: string)
    requires a != "" && c !in a
    ensures Token(a + [c] + b, c) == (Some(a), b)
  {
    var t := a + [c] + b;
    assert t[0] == a[0];
    assert t[..|a|] == a && t[|a| + 1..] == b;
    FindIs(t, c, |a|);
  }

  lemma ApplyTokens(d: Config, t: string, key: string, rest: string, value: string)
    requires !Skipped(t) && Token(t, '=') == (Some(key), rest) && Token(rest, '\n').0 == Some(value)
    ensures ApplyLine(d, t) ==
      match ParseKey(Trimmed(key))
      case Some(k) => Assign(d, k, Trimmed(value))
      case None => d
  {
  }

  lemma EntryTokens(key: string, value: string, separator: char, end: char, t: string)
    requires key != "" && separator !in key && value != "" && end !in value
    requires t == key + [separator] + (value + [end])
    ensures Token(t, separator) == (Some(key), value + [end]) && Token(value + [end], end).0 == Some(value)
    ensures t[0] == key[0]
  {
    TokenAt(key, separator, value + [end]);
    assert value + [end] == value + [end] + [];
    TokenAt(value, end, []);
  }

  /** A line `key=value` sets the key to the value, minus trailing blanks of both. */
  lemma EntryLine(d: Config, key: string, value: string)
    requires key != "" && '=' !in key && !Skipped(key) && value != "" && '\n' !in value
    ensures ApplyLine(d, key + "=" + value + "\n") ==
      match ParseKey(Trimmed(key))
      case Some(k) => Assign(d, k, Trimmed(value))
      case None => d
  {
    var t := key + "=" + value + "\n";
    assert t == key + ['='] + (value + ['\n']);
    EntryTokens(key, value, '=', '\n', t);
    ApplyTokens(d, t, key, value + ['\n'], value);
  }

  lemma EntryReadsBack(d: Config, c: Config, k: Key, key: string, value: string)
    requires PrintablePath(c.path) && (k.KPath? ==> |c.path| < PATH_SIZE)
    requires key == KeyText(k) && value == ValueText(c, k)
    ensures ApplyLine(d, Visible(key + "=" + value + "\n")) == TakeField(d, c, k)
  {
    KeyReadsBack(k);
    ValueReadsBack(d, c, k);
    var t := key + "=" + value + "\n";
    FindNone(t, NUL);
    assert Visible(t) == t;
    TrimmedKeeps(key);
    TrimmedKeeps(value);
    EntryLine(d, key, value);
  }

  lemma SkippedReadsBack(d: Config, t: string)
    requires Skipped(t)
    ensures ApplyLine(d, Visible(t)) == d
  {
    assert Find(t, NUL) > 0;
    assert Visible(t)[0] == t[0];
  }

  lemma LineReadsBack(d: Config, c: Config, l: FileLine)
    requires PrintablePath(c.path) && PrintableLine(c, l)
    ensures ApplyLine(d, Visible(Printed(c, l) + "\n")) == if l.Entry? then TakeField(d, c, l.key) else d
  {
    match l
    case Comment(text) => assert (Printed(c, l) + "\n")[0] == '#'; SkippedReadsBack(d, Printed(c, l) + "\n");
    case EmptyLine => assert (Printed(c, l) + "\n")[0] == '\n'; SkippedReadsBack(d, Printed(c, l) + "\n");
    case Entry(k) => EntryReadsBack(d, c, k, KeyText(k), ValueText(c, k));
  }

  lemma EntryHasNoNewline(c: Config, k: Key, key: string, value: string)
    requires key == KeyText(k) && value == ValueText(c, k) && PrintablePath(c.path)
    ensures '\n' !in key && '\n' !in value
  {
  }

  lemma JoinedHasNoNewline(key: string, value: string)
    requires '\n' !in key && '\n' !in value
    ensures '\n' !in key + "=" + value
  {
  }

  lemma PrintedHasNoNewline(c: Config, l: FileLine)
    requires PrintablePath(c.path) && PrintableLine(c, l)
    ensures '\n' !in Printed(c, l)
  {
    if l.Entry? {
      EntryHasNoNewline(c, l.key, KeyText(l.key), ValueText(c, l.key));
      JoinedHasNoNewline(KeyText(l.key), ValueText(c, l.key));
    }
  }

  lemma ChunkIsLine(text: string, rest: string)
    requires '\n' !in text && |text| < LINE_SIZE - 1
    ensures Chunk(text + "\n" + rest) == text + "\n"
    ensures (text + "\n" + rest)[|text + "\n"|..] == rest
  {
    var s := text + "\n" + rest;
    assert s[..|text|] == text && s[|text|] == '\n';
    FindIs(s, '\n', |text|);
    assert s[..|text| + 1] == text + "\n";
  }

  /** The fields of the keys that occur among the lines. */
  function TakeAll(d: Config, c: Config, ls: seq<FileLine>): Config
    decreases |ls|
  {
    if ls == [] then d
    else TakeAll(if ls[0].Entry? then TakeField(d, c, ls[0].key) else d, c, ls[1..])
  }

  lemma {:induction false} PrintReadsBack(d: Config, c: Config, ls: seq<FileLine>)
    requires PrintablePath(c.path) && forall i :: 0 <= i < |ls| ==> PrintableLine(c, ls[i])
    ensures ReadAll(d, Print(c, ls)) == TakeAll(d, c, ls)
    decreases |ls|
  {
    if ls != [] {
      var text, rest := Printed(c, ls[0]), Print(c, ls[1..]);
      PrintedHasNoNewline(c, ls[0]);
      ChunkIsLine(text, rest);
      LineReadsBack(d, c, ls[0]);
      PrintReadsBack(if ls[0].Entry? then TakeField(d, c, ls[0].key) else d, c, ls[1..]);
    }
  }

  predicate Agrees(d: Config, c: Config, k: Key) {
    match k
    case KLevel => d.level == c.level
    case KColors => d.useColors == c.useColors
    case KFile => d.logToFile == c.logToFile
    case KConsole => d.logToConsole == c.logToConsole
    case KPath => d.path == c.path
    case KAsync => d.asyncEnabled == c.asyncEnabled
    case KFlush => d.flushImmediately == c.flushImmediately
  }

  lemma TakenFields(d: Config, c: Config, j: Key, e: Config)
    requires e == TakeField(d, c, j)
    ensures e.level == (if j.KLevel? then c.level else d.level)
    ensures e.useColors == (if j.KColors? then c.useColors else d.useColors)
    ensures e.logToFile == (if j.KFile? then c.logToFile else d.logToFile)
    ensures e.logToConsole == (if j.KConsole? then c.logToConsole else d.logToConsole)
    ensures e.path == (if j.KPath? then c.path else d.path)
    ensures e.asyncEnabled == (if j.KAsync? then c.asyncEnabled else d.asyncEnabled)
    ensures e.flushImmediately == (if j.KFlush? then c.flushImmediately else d.flushImmediately)
  {
  }

  lemma TakeFieldAgrees(d: Config, c: Config, j: Key, k: Key, e: Config)
    requires e == TakeField(d, c, j) && (j == k || Agrees(d, c, k))
    ensures Agrees(e, c, k)
  {
    TakenFields(d, c, j, e);
  }

  /** Fields that agree stay so, and every key among the lines comes to agree. */
  lemma {:induction false} TakeAllAgrees(d: Config, c: Config, ls: seq<FileLine>, k: Key)
    requires Entry(k) in ls || Agrees(d, c, k)
    ensures Agrees(TakeAll(d, c, ls), c, k)
    decreases |ls|
  {
    if ls != [] {
      var first, rest := ls[0], ls[1..];
      assert Entry(k) in ls ==> first == Entry(k) || Entry(k) in rest by { assert ls == [first] + rest; }
      var e := if first.Entry? then TakeField(d, c, first.key) else d;
      if first.Entry? && (first.key == k || Agrees(d, c, k)) { TakeFieldAgrees(d, c, first.key, k, e); }
      TakeAllAgrees(e, c, rest, k);
    }
  }

  /** A printed configuration is read back unchanged whatever was there before: keys in
      any order, comments and blank lines anywhere, lines that fit the buffer. */
  lemma ConfigRoundTrip(start: Config, c: Config, ls: seq<FileLine>)
    requires PrintablePath(c.path) && forall i :: 0 <= i < |ls| ==> PrintableLine(c, ls[i])
    requires forall k: Key :: Entry(k) in ls
    ensures ReadAll(start, Print(c, ls)) == c
  {
    PrintReadsBack(start, c, ls);
    TakeAllAgrees(start, c, ls, KLevel);
    TakeAllAgrees(start, c, ls, KColors);
    TakeAllAgrees(start, c, ls, KFile);
    TakeAllAgrees(start, c, ls, KConsole);
    TakeAllAgrees(start, c, ls, KPath);
    TakeAllAgrees(start, c, ls, KAsync);
    TakeAllAgrees(start, c, ls, KFlush);
  }

  // ----- A last line without a newline -----

  lemma EntryTokensAtEnd(key: string, value: string, t: string)
    requires key != "" && '=' !in key && value != "" && '\n' !in value && t == key + ['='] + value
    ensures Token(t, '=') == (Some(key), value) && Token(value, '\n').0 == Some(value)
    ensures t[0] == key[0]
  {
    TokenAt(key, '=', value);
    FindNone(value, '\n');
    assert value[0] != '\n';
  }

  /** A last line `key=value` does what it would do with a newline. */
  lemma EntryLineAtEnd(d: Config, key: string, value: string)
    requires key != "" && '=' !in key && !Skipped(key) && value != "" && '\n' !in value
    ensures ApplyLine(d, key + "=" + value) == ApplyLine(d, key + "=" + value + "\n")
  {
    EntryTokensAtEnd(key, value, key + "=" + value);
    ApplyTokens(d, key + "=" + value, key, value, value);
    EntryLine(d, key, value);
  }

  lemma EntryReadsBackAtEnd(d: Config, c: Config, k: Key, key: string, value: string)
    requires PrintablePath(c.path) && (k.KPath? ==> |c.path| < PATH_SIZE)
    requires key == KeyText(k) && value == ValueText(c, k)
    ensures ApplyLine(d, Visible(key + "=" + value)) == TakeField(d, c, k)
  {
    KeyReadsBack(k);
    ValueReadsBack(d, c, k);
    FindNone(key + "=" + value, NUL);
    assert Visible(key + "=" + value) == key + "=" + value;
    TrimmedKeeps(key);
    TrimmedKeeps(value);
    EntryLine(d, key, value);
    EntryLineAtEnd(d, key, value);
  }

  lemma LastLineReadsBack(d: Config, c: Config, l: FileLine)
    requires PrintablePath(c.path) && PrintableLine(c, l)
    ensures ReadAll(d, Printed(c, l)) == if l.Entry? then TakeField(d, c, l.key) else d
  {
    var t := Printed(c, l);
    PrintedHasNoNewline(c, l);
    FindNone(t, '\n');
    assert Chunk(t) == t && t[|t|..] == "";
    match l
    case Comment(text) => assert t[0] == '#'; SkippedReadsBack(d, t);
    case EmptyLine =>
    case Entry(k) => EntryReadsBackAtEnd(d, c, k, KeyText(k), ValueText(c, k));
  }

  /** The printed lines with newlines between them only. */
  function PrintOpen(c: Config, ls: seq<FileLine>): string {
    if ls == [] then ""
    else if |ls| == 1 then Printed(c, ls[0])
    else Printed(c, ls[0]) + "\n" + PrintOpen(c, ls[1..])
  }

  lemma {:induction false} PrintOpenReadsBack(d: Config, c: Config, ls: seq<FileLine>)
    requires PrintablePath(c.path) && forall i :: 0 <= i < |ls| ==> PrintableLine(c, ls[i])
    ensures ReadAll(d, PrintOpen(c, ls)) == TakeAll(d, c, ls)
    decreases |ls|
  {
    if |ls| == 1 {
      LastLineReadsBack(d, c, ls[0]);
      assert ls[1..] == [];
    } else if ls != [] {
      var text, rest := Printed(c, ls[0]), PrintOpen(c, ls[1..]);
      PrintedHasNoNewline(c, ls[0]);
      ChunkIsLine(text, rest);
      LineReadsBack(d, c, ls[0]);
      PrintOpenReadsBack(if ls[0].Entry? then TakeField(d, c, ls[0].key) else d, c, ls[1..]);
    }
  }

  /** So the round trip does not need a newline at the end of the file. */
  lemma OpenConfigRoundTrip(start: Config, c: Config, ls: seq<FileLine>)
    requires PrintablePath(c.path) && forall i :: 0 <= i < |ls| ==> PrintableLine(c, ls[i])
    requires forall k: Key :: Entry(k) in ls
    ensures ReadAll(start, PrintOpen(c, ls)) == c
  {
    PrintOpenReadsBack(start, c, ls);
    PrintReadsBack(start, c, ls);
    ConfigRoundTrip(start, c, ls);
  }

  // ----- Values and lines that no printed configuration has -----

  lemma PlainLine(d: Config, k: Key, value: string, key: string)
    requires PrintablePath(value) && key == KeyText(k)
    ensures ApplyLine(d, key + "=" + value + "\n") == Assign(d, k, value)
  {
    KeyReadsBack(k);
    TrimmedKeeps(key);
    TrimmedKeeps(value);
    EntryLine(d, key, value);
  }

  /** A truth value is true for exactly four words. */
  lemma FlagWordsExactly(d: Config, k: Key, value: string)
    requires PrintablePath(value) && !k.KLevel? && !k.KPath?
    ensures Flag(ApplyLine(d, KeyText(k) + "=" + value + "\n"), k) <==> value in {"true", "yes", "1", "on"}
  {
    PlainLine(d, k, value, KeyText(k));
  }

  /** A level is told by its word, and every other word stands for info. */
  lemma LevelWordsExactly(d: Config, value: string)
    requires PrintablePath(value)
    ensures var level := ApplyLine(d, KeyText(KLevel) + "=" + value + "\n").level;
            && (level == Debug <==> value == "debug") && (level == Warn <==> value == "warn")
            && (level == Error <==> value == "error") && (level == Fatal <==> value == "fatal")
            && (level == Info <==> value !in {"debug", "warn", "error", "fatal"})
  {
    PlainLine(d, KLevel, value, KeyText(KLevel));
  }

  /** A path is kept up to 255 characters. */
  lemma PathLineExactly(d: Config, value: string)
    requires PrintablePath(value)
    ensures var path := ApplyLine(d, KeyText(KPath) + "=" + value + "\n").path;
            path <= value && |path| == if |value| < 255 then |value| else 255
  {
    PlainLine(d, KPath, value, KeyText(KPath));
  }

  /** A key is recognised by its own text only; a line with any other changes nothing. */
  lemma OtherKeysIgnored(d: Config, key: string, value: string)
    requires key != "" && '=' !in key && value != "" && '\n' !in value
    requires !Skipped(key) && forall k: Key :: Trimmed(key) != KeyText(k)
    ensures ApplyLine(d, key + "=" + value + "\n") == d
  {
    KeyTexts();
    EntryLine(d, key, value);
  }

  lemma KeyTexts()
    ensures KeyText(KLevel) == "log_level" && KeyText(KColors) == "use_colors" && KeyText(KFile) == "log_to_file"
    ensures KeyText(KConsole) == "log_to_console" && KeyText(KPath) == "log_file_path"
    ensures KeyText(KAsync) == "async_enabled" && KeyText(KFlush) == "flush_immediately"
  {
  }

  /** A line without an equals sign, or with nothing behind it, changes nothing. */
  lemma NoValueIgnored(d: Config, t: string)
    ensures '=' !in t ==> ApplyLine(d, t) == d
    ensures forall key: string :: key != "" && '=' !in key && t == key + "=\n" ==> ApplyLine(d, t) == d
  {
    if '=' !in t {
      FindNone(t, '=');
    }
    forall key: string | key != "" && '=' !in key && t == key + "=\n"
      ensures ApplyLine(d, t) == d
    {
      assert t == key + ['='] + "\n";
      TokenAt(key, '=', "\n");
      assert SkipLeading("\n", '\n') == SkipLeading("\n"[1..], '\n') && "\n"[1..] == "";
    }
  }

  /** What one call of fgets takes of a text: up to 255 characters, up to and with the first
      newline, and no less. */
  lemma ChunkExactly(s: string)
    ensures var t := Chunk(s);
            && t <= s && |t| <= 255 && (forall i :: 0 <= i < |t| - 1 ==> t[i] != '\n')
            && (t == s || |t| == 255 || (t != "" && t[|t| - 1] == '\n'))
  {
  }

  // ----- Blanks around the equals sign -----

  predicate Blanks(b: string) {
    AllSpace(b) && '\n' !in b && '=' !in b
  }

  lemma {:induction false} RightTrimBlanks(t: string, b: string)
    requires AllSpace(b) && t != "" && !Space(t[|t| - 1])
    ensures RightTrim(t + b) == t
    decreases |b|
  {
    if b == "" {
      assert t + b == t;
    } else {
      assert (t + b)[..|t + b| - 1] == t + b[..|b| - 1];
      RightTrimBlanks(t, b[..|b| - 1]);
    }
  }

  lemma TrimmedBlanks(t: string, b: string)
    requires AllSpace(b) && t != "" && !Space(t[|t| - 1])
    ensures Trimmed(t + b) == t
  {
    RightTrimBlanks(t, b);
    assert (t + b)[|t| - 1] == t[|t| - 1];
  }

  lemma PaddedKey(key: string, b: string)
    requires key != "" && '=' !in key && !Space(key[|key| - 1]) && !Skipped(key) && Blanks(b)
    ensures key + b != "" && '=' !in key + b && !Skipped(key + b) && Trimmed(key + b) == key
  {
    assert (key + b)[0] == key[0];
    TrimmedBlanks(key, b);
  }

  lemma PaddedValue(value: string, b2: string, b3: string)
    requires PrintablePath(value) && Blanks(b2) && Blanks(b3)
    ensures b2 + value + b3 != "" && '\n' !in b2 + value + b3 && Trimmed(b2 + value + b3) == b2 + value
  {
    var v := b2 + value;
    assert v[|v| - 1] == value[|value| - 1];
    TrimmedBlanks(v, b3);
  }

  /** With blanks around the equals sign and at the end of the line, the key is recognised
      but the blanks before the value become part of it. */
  lemma BlanksStayInValue(d: Config, k: Key, value: string, b1: string, b2: string, b3: string)
    requires Blanks(b1) && Blanks(b2) && Blanks(b3) && PrintablePath(value)
    ensures ApplyLine(d, (KeyText(k) + b1) + "=" + (b2 + value + b3) + "\n") == Assign(d, k, b2 + value)
  {
    KeyReadsBack(k);
    PaddedKey(KeyText(k), b1);
    PaddedValue(value, b2, b3);
    EntryLine(d, KeyText(k) + b1, b2 + value + b3);
  }

  /** So `log_level = <level>` is read as that level exactly when no blank precedes the
      value or the level is the default one, and `key = true` is read as true exactly when
      no blank precedes it. */
  lemma BlankValuesReadExactlyWhen(b: string, l: Level)
    requires Blanks(b)
    ensures ParseLevel(b + LevelText(l)) == l <==> b == "" || l == Info
    ensures ParseBoolean(b + "true") <==> b == ""
    ensures !ParseBoolean(b + "false")
  {
    if b == "" {
      assert b + LevelText(l) == LevelText(l) && b + "true" == "true" && b + "false" == "false";
    } else {
      assert (b + LevelText(l))[0] == b[0] && (b + "true")[0] == b[0] && (b + "false")[0] == b[0];
    }
  }

  /** A line for a key with blanks around the equals sign and at the end. */
  function PaddedLine(k: Key, value: string, b1: string, b2: string, b3: string): string {
    (KeyText(k) + b1) + "=" + (b2 + value + b3) + "\n"
  }

  /** The field of a key that takes a truth value. */
  function Flag(c: Config, k: Key): bool {
    match k
    case KColors => c.useColors
    case KFile => c.logToFile
    case KConsole => c.logToConsole
    case KAsync => c.asyncEnabled
    case KFlush => c.flushImmediately
    case _ => false
  }

  lemma LevelPrintable(l: Level)
    ensures PrintablePath(LevelText(l))
  {
  }

  lemma BooleanPrintable(v: bool)
    ensures PrintablePath(BooleanText(v))
  {
  }

  /** A padded line for the level is read correctly exactly when no blank precedes the value
      or the level is the default one. */
  lemma PaddedLevelReadExactlyWhen(d: Config, l: Level, b1: string, b2: string, b3: string)
    requires Blanks(b1) && Blanks(b2) && Blanks(b3)
    ensures ApplyLine(d, PaddedLine(KLevel, LevelText(l), b1, b2, b3)).level == l <==> b2 == "" || l == Info
  {
    LevelPrintable(l);
    BlanksStayInValue(d, KLevel, LevelText(l), b1, b2, b3);
    BlankValuesReadExactlyWhen(b2, l);
  }

  /** A padded line for a truth value is read correctly exactly when no blank precedes the
      value or the value is false. */
  lemma PaddedFlagReadExactlyWhen(d: Config, k: Key, v: bool, b1: string, b2: string, b3: string)
    requires Blanks(b1) && Blanks(b2) && Blanks(b3) && !k.KLevel? && !k.KPath?
    ensures Flag(ApplyLine(d, PaddedLine(k, BooleanText(v), b1, b2, b3)), k) == v <==> b2 == "" || !v
  {
    BooleanPrintable(v);
    BlanksStayInValue(d, k, BooleanText(v), b1, b2, b3);
    BlankValuesReadExactlyWhen(b2, Info);
  }

  lemma SampleLineText(key: string, value: string)
    requires key == KeyText(KLevel) && value == LevelText(Debug)
    ensures (key + " ") + "=" + (" " + value + "") + "\n" == key + " = " + value + "\n"
  {
    assert " " + "=" + " " == " = ";
    assert value + "" == value;
  }

  /** A line written like those of the sample configuration, which asks for debug messages
      this way, gets the info level. */
  lemma SampleLevelMisread(d: Config, key: string, value: string)
    requires key == KeyText(KLevel) && value == LevelText(Debug)
    ensures ApplyLine(d, key + " = " + value + "\n").level == Info
  {
    BlanksStayInValue(d, KLevel, value, " ", " ", "");
    BlankValuesReadExactlyWhen(" ", Debug);
    SampleLineText(key, value);
  }
}
