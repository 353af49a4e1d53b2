// The credentials file PostgresBackup hands to pg_dump, against the reader described under "The
// Password File" in the PostgreSQL libpq documentation.
module Passfile {
  import opened Options
  import opened Decimals
  import opened Strings

  // ---------------------------------------------------------------- what normalize accepts

  datatype Settings = Settings(host: string, port: string, database: string, username: string, password: string)

  /** safeConnectionValue: nonempty, without control characters, ';' and '='. */
  predicate SafeConnectionValue(value: string)
  {
    value != "" && forall c <- value :: c > 0x1f as char && c != ';' && c != '='
  }

  /** The pattern lacks the D modifier, so its $ also matches before one final newline; the integer
      cast then stops at that newline. */
  predicate AcceptedPort(port: string)
  {
    var digits := if port != "" && port[|port| - 1] == '\n' then port[..|port| - 1] else port;
    1 <= |digits| <= 5 && AllDigits(digits) && digits[0] != '0' && Value(digits) <= 65535
  }

  function Lower(c: char): char
  {
    if 'A' <= c <= 'Z' then c - 'A' + 'a' else c
  }

  predicate FoldedAt(value: string, needle: string, i: nat)
    requires i <= |value| - |needle|
  {
    forall j | 0 <= j < |needle| :: Lower(value[i + j]) == needle[j]
  }

  /** str_contains(strtolower($value), $needle), for a needle in lower case. */
  predicate ContainsFolded(value: string, needle: string)
  {
    exists i | 0 <= i <= |value| - |needle| :: FoldedAt(value, needle, i)
  }

  predicate Accepted(s: Settings)
  {
    AcceptedPort(s.port)
    && SafeConnectionValue(s.host) && SafeConnectionValue(s.database) && SafeConnectionValue(s.username)
    && !ContainsFolded(s.database, "postgresql://") && !ContainsFolded(s.database, "postgres://")
    && '\0' !in s.password && '\n' !in s.password && '\r' !in s.password
  }

  // ---------------------------------------------------------------- writing

  /** str_replace of one character. */
  function ReplaceAll(s: string, c: char, with: string): string
  {
    if s == "" then "" else (if s[0] == c then with else [s[0]]) + ReplaceAll(s[1..], c, with)
  }

  /** escapePassfileField: str_replace runs its two replacements one after the other. */
  function EscapeField(value: string): string
  {
    ReplaceAll(ReplaceAll(value, '\\', "\\\\"), ':', "\\:")
  }

  function EscapedChar(c: char): string
  {
    if c == '\\' || c == ':' then ['\\', c] else [c]
  }

  function Escaped(value: string): string
  {
    if value == "" then ""
    else EscapedChar(value[0]) + Escaped(value[1..])
  }

  lemma {:induction false} ReplaceAllConcat(s: string, t: string, c: char, with: string)
    ensures ReplaceAll(s + t, c, with) == ReplaceAll(s, c, with) + ReplaceAll(t, c, with)
  {
    if s == "" {
      assert s + t == t;
    } else {
      assert (s + t)[1..] == s[1..] + t;
      ReplaceAllConcat(s[1..], t, c, with);
    }
  }

  /** The two passes over the whole value amount to one escape per character: the second pass leaves
      the backslashes of the first alone. */
  lemma {:induction false} TwoPassesAreOne(value: string)
    ensures EscapeField(value) == Escaped(value)
  {
    if value != "" {
      var head := if value[0] == '\\' then "\\\\" else [value[0]];
      ReplaceAllConcat(head, ReplaceAll(value[1..], '\\', "\\\\"), ':', "\\:");
      TwoPassesAreOne(value[1..]);
      EscapedOne(value[0], head);
    }
  }

  lemma EscapedOne(c: char, head: string)
    requires head == if c == '\\' then "\\\\" else [c]
    ensures ReplaceAll(head, ':', "\\:") == EscapedChar(c)
  {
    if c == '\\' {
      assert head[1..] == ['\\'] && ['\\'][1..] == "";
      assert ReplaceAll(['\\'], ':', "\\:") == ['\\'];
    } else {
      assert head[1..] == "";
    }
  }

  predicate PlainHost(host: string)
  {
    host != "" && '\n' !in host
  }

  lemma {:induction false} EscapedKeepsNewlines(value: string)
    ensures '\n' in Escaped(value) <==> '\n' in value
  {
    if value != "" {
      EscapedKeepsNewlines(value[1..]);
      assert value == [value[0]] + value[1..];
    }
  }

  function Line(fields: seq<string>): string
  {
    if |fields| == 0 then ""
    else if |fields| == 1 then Escaped(fields[0])
    else Escaped(fields[0]) + ":" + Line(fields[1..])
  }

  /** array_map of escapePassfileField. */
  function EscapeAll(fields: seq<string>): seq<string>
  {
    if fields == [] then [] else [EscapeField(fields[0])] + EscapeAll(fields[1..])
  }

  lemma {:induction false} ImplodedFields(fields: seq<string>)
    ensures Implode(EscapeAll(fields), ':') == Line(fields)
  {
    if fields != [] {
      TwoPassesAreOne(fields[0]);
      ImplodedFields(fields[1..]);
      if |fields| > 1 {
        ImplodeCons(EscapeField(fields[0]), EscapeAll(fields[1..]), ':');
      }
    }
  }

  function Fields(host: string, s: Settings): seq<string>
  {
    [host, s.port, s.database, s.username, s.password]
  }

  function WrittenLine(host: string, s: Settings): string
  {
    Implode(EscapeAll(Fields(host, s)), ':') + "\n"
  }

  lemma WrittenLineIsEscaped(host: string, s: Settings)
    ensures WrittenLine(host, s) == Line(Fields(host, s)) + "\n"
  {
    ImplodedFields(Fields(host, s));
  }

  /** The names a line is written for: libpq looks its default socket directory up as localhost. */
  function Hosts(s: Settings): seq<string>
  {
    if s.host != "" && s.host[0] == '/' then [s.host, "localhost"] else [s.host]
  }

  // ---------------------------------------------------------------- reading, as libpq documents it

  /** A line taken apart at its unescaped colons, with the backslashes of escapes removed. */
  function ReadFields(line: string): (fields: seq<string>)
    ensures |fields| > 0
  {
    if line == "" then [""]
    else if line[0] == ':' then [""] + ReadFields(line[1..])
    else if line[0] == '\\' && |line| > 1 then Prepend(line[1], ReadFields(line[2..]))
    else Prepend(line[0], ReadFields(line[1..]))
  }

  function Prepend(c: char, fields: seq<string>): (r: seq<string>)
    requires |fields| > 0
    ensures |r| == |fields|
  {
    [[c] + fields[0]] + fields[1..]
  }

  datatype Entry = Entry(host: string, port: string, database: string, username: string, password: string)

  /** A line that starts with '#' is a reminder, and one with fewer than five fields names nothing. */
  function ReadLine(line: string): seq<Entry>
  {
    var fields := ReadFields(line);
    if (line != "" && line[0] == '#') || |fields| < 5 then []
    else [Entry(fields[0], fields[1], fields[2], fields[3], fields[4])]
  }

  function ReadLines(lines: seq<string>): seq<Entry>
  {
    if lines == [] then [] else ReadLine(lines[0]) + ReadLines(lines[1..])
  }

  function ReadFile(contents: string): seq<Entry>
  {
    ReadLines(Explode(contents, '\n'))
  }

  predicate Matches(field: string, value: string)
  {
    field == "*" || field == value
  }

  /** The password of the first line that matches the connection. */
  function Lookup(entries: seq<Entry>, host: string, s: Settings): Option<string>
  {
    if entries == [] then None
    else if Matches(entries[0].host, host) && Matches(entries[0].port, s.port)
            && Matches(entries[0].database, s.database) && Matches(entries[0].username, s.username)
    then Some(entries[0].password)
    else Lookup(entries[1..], host, s)
  }

  // ---------------------------------------------------------------- reading what was written

  lemma ReadOne(c: char, tail: string)
    ensures ReadFields(EscapedChar(c) + tail) == Prepend(c, ReadFields(tail))
  {
    if c == '\\' || c == ':' {
      assert (['\\', c] + tail)[2..] == tail;
    } else {
      assert ([c] + tail)[1..] == tail;
    }
  }

  /** The fields that follow a first one, after the colon that ends it. */
  function Remaining(rest: string): seq<string>
    requires rest == "" || rest[0] == ':'
  {
    if rest == "" then [] else ReadFields(rest[1..])
  }

  lemma {:induction false} ReadEscaped(value: string, rest: string)
    requires rest == "" || rest[0] == ':'
    ensures ReadFields(Escaped(value) + rest) == [value] + Remaining(rest)
  {
    if value == "" {
      assert Escaped(value) + rest == rest;
    } else {
      var c, tail := value[0], Escaped(value[1..]) + rest;
      ReadEscaped(value[1..], rest);
      ReadOne(c, tail);
      assert Escaped(value) + rest == EscapedChar(c) + tail;
      PrependTo(c, value[1..], Remaining(rest));
      assert [c] + value[1..] == value;
    }
  }

  lemma PrependTo(c: char, first: string, more: seq<string>)
    ensures Prepend(c, [first] + more) == [[c] + first] + more
  {
    assert ([first] + more)[1..] == more;
  }

  lemma {:induction false} ReadWrittenLine(fields: seq<string>)
    requires fields != []
    ensures ReadFields(Line(fields)) == fields
  {
    if |fields| == 1 {
      ReadEscaped(fields[0], "");
      assert Escaped(fields[0]) + "" == Escaped(fields[0]);
    } else {
      ReadWrittenLine(fields[1..]);
      ReadSeparated(fields[0], Line(fields[1..]));
    }
  }

  lemma ReadSeparated(field: string, rest: string)
    ensures ReadFields(Escaped(field) + ":" + rest) == [field] + ReadFields(rest)
  {
    ReadEscaped(field, ":" + rest);
    assert (":" + rest)[1..] == rest;
    assert Escaped(field) + (":" + rest) == Escaped(field) + ":" + rest;
  }

  lemma {:induction false} LineKeepsNewlines(fields: seq<string>)
    ensures '\n' in Line(fields) <==> exists f <- fields :: '\n' in f
  {
    if fields != [] {
      EscapedKeepsNewlines(fields[0]);
      LineKeepsNewlines(fields[1..]);
      assert fields == [fields[0]] + fields[1..];
    }
  }

  lemma LineStartsAsItsHost(fields: seq<string>)
    requires |fields| > 1 && fields[0] != ""
    ensures Line(fields) != "" && (Line(fields)[0] == '#' <==> fields[0][0] == '#')
  {
    assert Escaped(fields[0])[0] == if fields[0][0] == ':' then '\\' else fields[0][0];
    assert Line(fields)[0] == Escaped(fields[0])[0];
  }

  function Written(host: string, s: Settings): Entry
  {
    Entry(host, s.port, s.database, s.username, s.password)
  }

  lemma ReadWholeLine(host: string, s: Settings)
    requires host != ""
    ensures ReadLine(Line(Fields(host, s))) == if host[0] == '#' then [] else [Written(host, s)]
  {
    ReadWrittenLine(Fields(host, s));
    LineStartsAsItsHost(Fields(host, s));
  }

  /** A port that ends in a newline breaks its line in two, and neither half has five fields. */
  lemma ReadBrokenLine(host: string, port: string, rest: seq<string>)
    requires PlainHost(host) && '\n' !in port && |rest| == 3 && forall f <- rest :: '\n' !in f
    ensures var head, tail := Line([host, port]), ":" + Line(rest);
            && Line([host, port + "\n"] + rest) == head + "\n" + tail
            && '\n' !in head && '\n' !in tail
            && ReadLine(head) == [] && ReadLine(tail) == []
  {
    ReadWrittenLine([host, port]);
    ReadWrittenLine(rest);
    LineKeepsNewlines([host, port]);
    LineKeepsNewlines(rest);
    assert (":" + Line(rest))[1..] == Line(rest);
    BrokenLine(host, port, rest);
  }

  lemma BrokenLine(host: string, port: string, rest: seq<string>)
    requires rest != []
    ensures Line([host, port + "\n"] + rest) == Line([host, port]) + "\n" + (":" + Line(rest))
  {
    EscapedNewline(port);
    var whole := [host, port + "\n"] + rest;
    assert whole[1..] == [port + "\n"] + rest;
    assert ([port + "\n"] + rest)[1..] == rest;
    assert [host, port][1..] == [port];
  }

  lemma {:induction false} EscapedNewline(port: string)
    ensures Escaped(port + "\n") == Escaped(port) + "\n"
  {
    if port == "" {
      assert port + "\n" == "\n" && "\n"[1..] == "";
    } else {
      assert (port + "\n")[1..] == port[1..] + "\n";
      EscapedNewline(port[1..]);
    }
  }

  // ---------------------------------------------------------------- the whole file

  function Contents(hosts: seq<string>, s: Settings): string
  {
    if hosts == [] then "" else Line(Fields(hosts[0], s)) + "\n" + Contents(hosts[1..], s)
  }

  function Expected(hosts: seq<string>, s: Settings): seq<Entry>
  {
    if hosts == [] then [] else [Written(hosts[0], s)] + Expected(hosts[1..], s)
  }

  lemma {:induction false} ReadContents(hosts: seq<string>, s: Settings)
    requires '\n' !in s.port && '\n' !in s.database && '\n' !in s.username && '\n' !in s.password
    requires forall h <- hosts :: PlainHost(h) && h[0] != '#'
    ensures ReadFile(Contents(hosts, s)) == Expected(hosts, s)
  {
    if hosts != [] {
      var line := Line(Fields(hosts[0], s));
      ReadContents(hosts[1..], s);
      LineKeepsNewlines(Fields(hosts[0], s));
      ExplodeSeparated(line, Contents(hosts[1..], s), '\n');
      ReadWholeLine(hosts[0], s);
      assert line + ['\n'] + Contents(hosts[1..], s) == Contents(hosts, s);
    }
  }

  lemma {:induction false} NothingReadFromBrokenLines(hosts: seq<string>, s: Settings, port: string)
    requires '\n' !in port && s.port == port + "\n"
    requires '\n' !in s.database && '\n' !in s.username && '\n' !in s.password
    requires forall h <- hosts :: PlainHost(h)
    ensures ReadFile(Contents(hosts, s)) == []
  {
    if hosts != [] {
      var rest := [s.database, s.username, s.password];
      var more := Contents(hosts[1..], s);
      NothingReadFromBrokenLines(hosts[1..], s, port);
      assert hosts[0] in hosts;
      BrokenLineIsSkipped(hosts[0], port, rest, more);
      assert Fields(hosts[0], s) == [hosts[0], port + "\n"] + rest;
    }
  }

  lemma BrokenLineIsSkipped(host: string, port: string, rest: seq<string>, more: string)
    requires PlainHost(host) && '\n' !in port && |rest| == 3 && forall f <- rest :: '\n' !in f
    ensures ReadFile(Line([host, port + "\n"] + rest) + "\n" + more) == ReadFile(more)
  {
    ReadBrokenLine(host, port, rest);
    TwoLinesSkipped(Line([host, port]), ":" + Line(rest), more);
  }

  lemma TwoLinesSkipped(head: string, tail: string, more: string)
    requires '\n' !in head && '\n' !in tail && ReadLine(head) == [] && ReadLine(tail) == []
    ensures ReadFile(head + "\n" + tail + "\n" + more) == ReadFile(more)
  {
    ExplodeSeparated(tail, more, '\n');
    ExplodeSeparated(head, tail + ['\n'] + more, '\n');
    assert head + ['\n'] + (tail + ['\n'] + more) == head + "\n" + tail + "\n" + more;
    SkipTwo(head, tail, Explode(more, '\n'));
  }

  lemma SkipTwo(head: string, tail: string, lines: seq<string>)
    requires ReadLine(head) == [] && ReadLine(tail) == []
    ensures ReadLines([head] + ([tail] + lines)) == ReadLines(lines)
  {
    assert ([head] + ([tail] + lines))[1..] == [tail] + lines;
    assert ([tail] + lines)[1..] == lines;
  }

  lemma AcceptedHasNoNewlines(s: Settings)
    requires Accepted(s)
    ensures '\n' !in s.host && '\n' !in s.database && '\n' !in s.username && '\n' !in s.password
    ensures forall h <- Hosts(s) :: PlainHost(h)
    ensures s.port != "" && (s.host[0] != '#' ==> forall h <- Hosts(s) :: h[0] != '#')
    ensures '\n' in s.port ==> '\n' !in s.port[..|s.port| - 1] && s.port == s.port[..|s.port| - 1] + "\n"
  {
  }

  /** The reader gets back exactly the five fields of every line for precisely those accepted settings
      whose port does not end in a newline and whose host does not start like a reminder. */
  lemma FileReadsBackExactly(s: Settings)
    requires Accepted(s)
    ensures ReadFile(Contents(Hosts(s), s)) == Expected(Hosts(s), s) <==> '\n' !in s.port && s.host[0] != '#'
  {
    AcceptedHasNoNewlines(s);
    if '\n' in s.port {
      NothingReadFromBrokenLines(Hosts(s), s, s.port[..|s.port| - 1]);
    } else if s.host[0] == '#' {
      var line := Line(Fields(s.host, s));
      ReadWholeLine(s.host, s);
      LineKeepsNewlines(Fields(s.host, s));
      ExplodeSeparated(line, "", '\n');
      assert Contents(Hosts(s), s) == line + ['\n'] + "";
      assert ReadFile(Contents(Hosts(s), s)) == ReadLines([line, ""]) == ReadLines([""]);
      EmptyLine();
    } else {
      ReadContents(Hosts(s), s);
    }
  }

  lemma EmptyLine()
    ensures ReadLines([""]) == []
  {
    assert ReadFields("") == [""];
    assert [""][1..] == [];
  }

  /** What the file is for: pg_dump finds the configured password under the configured host, and under
      localhost when that host is a socket directory. */
  lemma PasswordIsFound(s: Settings, host: string)
    requires Accepted(s) && '\n' !in s.port && s.host[0] != '#'
    requires host in Hosts(s)
    ensures Lookup(ReadFile(Contents(Hosts(s), s)), host, s) == Some(s.password)
  {
    FileReadsBackExactly(s);
    var entries := Expected(Hosts(s), s);
    assert entries[0] == Written(s.host, s);
    if host != s.host {
      assert entries[1] == Written(host, s);
    }
  }

  /** Such settings exist: the reader finds no line at all in this file. */
  lemma PortWithNewlineIsAccepted(s: Settings)
    requires s == Settings("h", "5432\n", "d", "u", "p")
    ensures Accepted(s) && ReadFile(Contents(Hosts(s), s)) == []
  {
    PortAccepted("5432\n");
    AcceptedHasNoNewlines(s);
    NothingReadFromBrokenLines(Hosts(s), s, "5432");
  }

  lemma PortAccepted(port: string)
    requires port == "5432\n"
    ensures AcceptedPort(port)
  {
    assert port[..4] == "5432";
    assert "5432"[..3] == "543" && "543"[..2] == "54" && "54"[..1] == "5" && "5"[..0] == "";
    assert Value("5") == 5 && Value("54") == 54 && Value("543") == 543;
  }

  /** writePassfile. */
  method WritePassfile(s: Settings) returns (contents: string)
    requires s.host != ""
    ensures contents == Contents(Hosts(s), s)
  {
    var hosts := [s.host];
    if s.host[0] == '/' {
      hosts := hosts + ["localhost"];
    }
    contents := "";
    for i := 0 to |hosts|
      invariant contents + Contents(hosts[i..], s) == Contents(hosts, s)
    {
      ContentsStep(contents, hosts[i..], s);
      contents := contents + WrittenLine(hosts[i], s);
      assert hosts[i..][1..] == hosts[i + 1..];
    }
  }

  lemma ContentsStep(before: string, hosts: seq<string>, s: Settings)
    requires hosts != []
    ensures before + Contents(hosts, s) == before + WrittenLine(hosts[0], s) + Contents(hosts[1..], s)
  {
    WrittenLineIsEscaped(hosts[0], s);
  }
}
