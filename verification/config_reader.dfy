/** Reading the configuration file: a fixed line buffer, strtok and trimming in place
    (src/config.c). */
module ConfigReader {
  import opened Options
  import opened Strings
  import opened ConfigFormat

  /** From `at`, the buffer holds the zero-terminated string `t`. */
  ghost predicate Holds(a: array<char>, at: nat, t: string)
    reads a
  {
    && at + |t| < a.Length && a[at + |t|] == NUL
    && forall i :: 0 <= i < |t| ==> a[at + i] == t[i] && t[i] != NUL
  }

  lemma HoldsAt(a: array<char>, at: nat, t: string, i: nat)
    requires Holds(a, at, t) && i <= |t|
    ensures a[at + i] == if i < |t| then t[i] else NUL
    ensures Holds(a, at + i, t[i..])
  {
    var u := t[i..];
    forall j | 0 <= j < |u|
      ensures a[at + i + j] == u[j] && u[j] != NUL
    {
      assert u[j] == t[i + j];
    }
  }

  method StrLen(a: array<char>, at: nat, ghost t: string) returns (n: nat)
    requires Holds(a, at, t)
    ensures n == |t|
  {
    n := 0;
    HoldsAt(a, at, t, 0);
    while a[at + n] != NUL
      invariant n <= |t| && at + n < a.Length
      invariant a[at + n] == if n < |t| then t[n] else NUL
      decreases |t| - n
    {
      n := n + 1;
      HoldsAt(a, at, t, n);
    }
  }

  /** Writing one zero cuts a string in two. */
  method Terminate(a: array<char>, at: nat, k: nat, ghost t: string)
    requires Holds(a, at, t) && k <= |t|
    modifies a
    ensures Holds(a, at, t[..k]) && (k < |t| ==> Holds(a, at + k + 1, t[k + 1..]))
    ensures forall i :: 0 <= i < a.Length && i != at + k ==> a[i] == old(a[i])
  {
    if k < |t| { HoldsAt(a, at, t, k + 1); }
    a[at + k] := NUL;
  }

  // ----- trim_string -----

  lemma RightTrimIs(t: string, k: nat)
    requires 0 < k <= |t| && !Space(t[k - 1]) && AllSpace(t[k..])
    ensures Trimmed(t) == t[..k]
  {
    assert t == t[..k] + t[k..];
    RightTrimBlanks(t[..k], t[k..]);
  }

  /** How many blanks the string begins with. */
  method LeadingBlanks(a: array<char>, at: nat, ghost t: string) returns (k: nat)
    requires Holds(a, at, t)
    ensures k <= |t| && AllSpace(t[..k]) && (k < |t| ==> !Space(t[k]))
  {
    k := 0;
    HoldsAt(a, at, t, 0);
    while Space(a[at + k])
      invariant k <= |t| && AllSpace(t[..k]) && a[at + k] == if k < |t| then t[k] else NUL
      decreases |t| - k
    {
      k := k + 1;
      HoldsAt(a, at, t, k);
    }
  }

  /** Where the string ends once its trailing blanks are dropped: behind the last
      character that is not blank, if there is one past the `k` leading blanks. */
  method TrimmedLength(a: array<char>, at: nat, k: nat, n: nat, ghost t: string) returns (m: nat)
    requires Holds(a, at, t) && k + n == |t| && (0 < n ==> !Space(t[k]))
    ensures k <= m <= |t| && AllSpace(t[m..]) && (0 < n ==> k < m && !Space(t[m - 1]))
  {
    m := k + n;
    var end: int := at + m - 1;
    while end > at + k && Space(a[end])
      invariant k <= m <= |t| && end == at + m - 1 && (0 < n ==> k < m) && AllSpace(t[m..])
      decreases m
    {
      HoldsAt(a, at, t, m - 1);
      end := end - 1;
      m := m - 1;
    }
    if 0 < n { HoldsAt(a, at, t, m - 1); }
  }

  /** trim_string: it only ever shortens the string, by writing one zero. */
  method TrimString(a: array<char>, at: nat, ghost t: string)
    requires Holds(a, at, t)
    modifies a
    ensures Holds(a, at, Trimmed(t))
    ensures forall i :: 0 <= i < a.Length && (i < at || at + |t| < i) ==> a[i] == old(a[i])
  {
    var k := LeadingBlanks(a, at, t);
    HoldsAt(a, at, t, k);
    var n := StrLen(a, at + k, t[k..]);
    var m := TrimmedLength(a, at, k, n, t);
    if n == 0 {
      assert t[..k] == t && t[..m] == t;
    } else {
      RightTrimIs(t, m);
    }
    Terminate(a, at, m, t);
  }

  // ----- strtok -----

  lemma SkipStep(t: string, c: char, i: nat)
    requires i <= |t| && SkipLeading(t, c) == SkipLeading(t[i..], c)
    ensures if i < |t| && t[i] == c then SkipLeading(t, c) == SkipLeading(t[i + 1..], c)
            else SkipLeading(t, c) == t[i..]
  {
    if i < |t| { assert t[i..][1..] == t[i + 1..]; }
  }

  method SkipDelimiters(a: array<char>, from: nat, c: char, ghost t: string) returns (i: nat)
    requires Holds(a, from, t) && c != NUL
    ensures i <= |t| && SkipLeading(t, c) == t[i..]
  {
    i := 0;
    HoldsAt(a, from, t, 0);
    assert t[0..] == t;
    while a[from + i] == c
      invariant i <= |t| && SkipLeading(t, c) == SkipLeading(t[i..], c)
      invariant a[from + i] == if i < |t| then t[i] else NUL
      decreases |t| - i
    {
      SkipStep(t, c, i);
      i := i + 1;
      HoldsAt(a, from, t, i);
    }
    SkipStep(t, c, i);
  }

  method ScanTo(a: array<char>, start: nat, c: char, ghost u: string) returns (j: nat)
    requires Holds(a, start, u) && c != NUL
    ensures j == Find(u, c)
  {
    j := 0;
    HoldsAt(a, start, u, 0);
    while a[start + j] != NUL && a[start + j] != c
      invariant j <= |u| && c !in u[..j] && a[start + j] == if j < |u| then u[j] else NUL
      decreases |u| - j
    {
      j := j + 1;
      HoldsAt(a, start, u, j);
    }
    if j < |u| {
      FindIs(u, c, j);
    } else {
      assert u[..j] == u;
      FindNone(u, c);
    }
  }

  /** The token at the start of a string that does not begin with the delimiter: finds its
      end and terminates it there. */
  method CutToken(a: array<char>, start: nat, c: char, ghost u: string,
                  ghost k: Option<string>, ghost rest: string)
    returns (saved: nat)
    requires Holds(a, start, u) && c != NUL && u != "" && (k, rest) == Cut(u, c)
    modifies a
    ensures k.Some? && Holds(a, start, k.value) && Holds(a, saved, rest) && start <= saved
    ensures rest != "" ==> start + |k.value| < saved
    ensures forall i :: 0 <= i < a.Length && (i < start || start + |u| < i) ==> a[i] == old(a[i])
  {
    var j := ScanTo(a, start, c, u);
    HoldsAt(a, start, u, j);
    if a[start + j] == c {
      Terminate(a, start, j, u);
      saved := start + j + 1;
    } else {
      saved := start + j;
      assert u[..j] == u;
    }
  }

  lemma CutIs(t: string, c: char, u: string)
    requires u == SkipLeading(t, c)
    ensures Token(t, c) == Cut(u, c) && (u == "" ==> Token(t, c) == (None, ""))
  {
  }

  /** strtok with a one-character delimiter set. The token starts inside the string, and
      the rest starts behind its terminator. */
  method StrTok(a: array<char>, from: nat, c: char, ghost t: string, ghost k: Option<string>, ghost rest: string)
    returns (token: Option<nat>, saved: nat)
    requires Holds(a, from, t) && c != NUL && (k, rest) == Token(t, c)
    modifies a
    ensures token.Some? <==> k.Some?
    ensures token.Some? ==> from <= token.value && Holds(a, token.value, k.value)
    ensures Holds(a, saved, rest) && from <= saved
    ensures token.Some? && rest != "" ==> token.value + |k.value| < saved
    ensures forall i :: 0 <= i < a.Length && (i < from || from + |t| < i) ==> a[i] == old(a[i])
    ensures token.None? ==> forall i :: 0 <= i < a.Length ==> a[i] == old(a[i])
  {
    var i := SkipDelimiters(a, from, c, t);
    HoldsAt(a, from, t, i);
    ghost var u := t[i..];
    CutIs(t, c, u);
    if a[from + i] == NUL {
      return None, from + i;
    }
    saved := CutToken(a, from + i, c, u, k, rest);
    token := Some(from + i);
  }

  // ----- Lines -----

  lemma ChunkIs(s: string, i: nat, found: bool)
    requires i <= |s| && i < LINE_SIZE
    requires if found then 0 < i && s[i - 1] == '\n' && '\n' !in s[..i - 1]
             else '\n' !in s[..i] && (i == LINE_SIZE - 1 || i == |s|)
    ensures Chunk(s) == s[..i]
  {
    if found {
      FindIs(s, '\n', i - 1);
    } else {
      FindPast(s, '\n', i);
      assert i == |s| ==> s[..i] == s;
    }
  }

  lemma HoldsVisible(a: array<char>, s: string)
    requires |s| < a.Length && a[..|s|] == s && a[|s|] == NUL
    ensures Holds(a, 0, Visible(s))
  {
    var v := Visible(s);
    assert forall k :: 0 <= k < |v| ==> a[k] == a[..|s|][k] == v[k];
  }

  /** fgets: at most 255 characters, up to and including a newline, then a zero. */
  method Fgets(file: string, pos: nat, line: array<char>) returns (next: nat)
    requires pos < |file| && line.Length == LINE_SIZE
    modifies line
    ensures next == pos + |Chunk(file[pos..])| <= |file|
    ensures Holds(line, 0, Visible(Chunk(file[pos..])))
  {
    ghost var s := file[pos..];
    var i := 0;
    var more := true;
    while more && i < LINE_SIZE - 1 && pos + i < |file|
      invariant i <= LINE_SIZE - 1 && pos + i <= |file| && line[..i] == s[..i]
      invariant if more then '\n' !in s[..i] else 0 < i && s[i - 1] == '\n' && '\n' !in s[..i - 1]
      decreases more, |file| - i
    {
      line[i] := file[pos + i];
      if file[pos + i] == '\n' {
        more := false;
      }
      i := i + 1;
    }
    line[i] := NUL;
    ChunkIs(s, i, !more);
    HoldsVisible(line, s[..i]);
    return pos + i;
  }

  /** A token in front of the scanned part survives the next strtok. */
  method NextToken(line: array<char>, from: nat, c: char, ghost t: string, ghost v: Option<string>,
                   ghost before: nat, ghost k: string)
    returns (token: Option<nat>)
    requires Holds(line, from, t) && c != NUL && v == Token(t, c).0
    requires Holds(line, before, k) && (t == "" || before + |k| < from)
    modifies line
    ensures token.Some? <==> v.Some?
    ensures token.Some? ==> from <= token.value && Holds(line, token.value, v.value)
    ensures token.Some? ==> t != "" && Holds(line, before, k)
  {
    var saved;
    token, saved := StrTok(line, from, c, t, v, Token(t, c).1);
  }

  /** The two strtok calls of a line, the first up to `separator` and the second up to
      `end`. */
  method SplitLine(line: array<char>, separator: char, end: char, ghost t: string,
                   ghost k: Option<string>, ghost rest: string, ghost v: Option<string>)
    returns (key: Option<nat>, value: Option<nat>)
    requires Holds(line, 0, t) && separator != NUL && end != NUL
    requires (k, rest) == Token(t, separator) && v == Token(rest, end).0
    modifies line
    ensures key.Some? && value.Some? <==> k.Some? && v.Some?
    ensures key.Some? && value.Some? ==>
      && Holds(line, key.value, k.value) && Holds(line, value.value, v.value)
      && key.value + |k.value| < value.value
  {
    var saved;
    key, saved := StrTok(line, 0, separator, t, k, rest);
    if key.Some? {
      value := NextToken(line, saved, end, rest, v, key.value, k.value);
    } else {
      var after;
      value, after := StrTok(line, saved, end, rest, v, Token(rest, end).1);
    }
  }

  method TrimBoth(line: array<char>, key: nat, value: nat, ghost k: string, ghost v: string)
    requires Holds(line, key, k) && Holds(line, value, v) && key + |k| < value
    modifies line
    ensures Holds(line, key, Trimmed(k)) && Holds(line, value, Trimmed(v))
  {
    TrimmedShorter(k);
    TrimString(line, key, k);
    assert Holds(line, value, v);
    TrimString(line, value, v);
  }

  lemma {:induction false} RightTrimShorter(t: string)
    ensures |RightTrim(t)| <= |t|
  {
    if t != "" && Space(t[|t| - 1]) { RightTrimShorter(t[..|t| - 1]); }
  }

  lemma TrimmedShorter(t: string)
    ensures |Trimmed(t)| <= |t|
  {
    RightTrimShorter(t);
  }

  /** The body of the loop over the lines. */
  method ProcessLine(line: array<char>, c: Config, ghost t: string) returns (d: Config)
    requires Holds(line, 0, t)
    modifies line
    ensures d == ApplyLine(c, t)
  {
    HoldsAt(line, 0, t, 0);
    if line[0] == '#' || line[0] == '\n' || line[0] == '\r' {
      return c;
    }
    ghost var (k, rest) := Token(t, '=');
    ghost var v := Token(rest, '\n').0;
    var key, value := SplitLine(line, '=', '\n', t, k, rest, v);
    if key.None? || value.None? {
      return c;
    }
    TrimBoth(line, key.value, value.value, k.value, v.value);
    var name := ReadString(line, key.value, Trimmed(k.value));
    var text := ReadString(line, value.value, Trimmed(v.value));
    d := AssignByName(c, name, text);
  }

  /** The chain of key comparisons. */
  method AssignByName(c: Config, name: string, text: string) returns (d: Config)
    ensures d == match ParseKey(name) {
                   case Some(k) => Assign(c, k, text)
                   case None => c
                 }
  {
    d := c;
    if name == "log_level" {
      d := c.(level := ParseLevel(text));
    } else if name == "use_colors" {
      d := c.(useColors := ParseBoolean(text));
    } else if name == "log_to_file" {
      d := c.(logToFile := ParseBoolean(text));
    } else if name == "log_to_console" {
      d := c.(logToConsole := ParseBoolean(text));
    } else if name == "log_file_path" {
      d := c.(path := CopiedPath(text));
    } else if name == "async_enabled" {
      d := c.(asyncEnabled := ParseBoolean(text));
    } else if name == "flush_immediately" {
      d := c.(flushImmediately := ParseBoolean(text));
    }
  }

  /** The string a pointer into the buffer denotes. */
  method ReadString(a: array<char>, at: nat, ghost t: string) returns (s: string)
    requires Holds(a, at, t)
    ensures s == t
  {
    var n := StrLen(a, at, t);
    s := a[at..at + n];
  }

  /** What the rest of the file does, once its first line has been taken in. */
  lemma ReadStep(c: Config, text: string, pos: nat, next: nat)
    requires pos < |text| && next == pos + |Chunk(text[pos..])| <= |text|
    ensures ReadAll(c, text[pos..]) == ReadAll(ApplyLine(c, Visible(Chunk(text[pos..]))), text[next..])
  {
    assert text[pos..][|Chunk(text[pos..])|..] == text[next..];
  }

  /** logger_config_read; a file that cannot be opened leaves the configuration alone. */
  method LoggerConfigRead(file: Option<string>, start: Config) returns (ok: bool, c: Config)
    ensures ok == file.Some?
    ensures c == if file.Some? then ReadAll(start, file.value) else start
  {
    c := start;
    if file.None? {
      return false, c;
    }
    var text := file.value;
    var line := new char[LINE_SIZE](_ => NUL);
    var pos := 0;
    assert text[0..] == text;
    while pos < |text|
      invariant pos <= |text| && ReadAll(start, text) == ReadAll(c, text[pos..])
    {
      var next := Fgets(text, pos, line);
      ReadStep(c, text, pos, next);
      c := ProcessLine(line, c, Visible(Chunk(text[pos..])));
      pos := next;
    }
    return true, c;
  }
}
