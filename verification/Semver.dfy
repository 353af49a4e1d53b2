// Semver::parseTag and Semver::compare, against the grammar and the precedence rules of Semantic
// Versioning 2.0.0 (sections 2, 9, 10 and 11).
module Semver {
  import opened Options
  import opened Decimals
  import opened Strings

  // ---------------------------------------------------------------- the pattern, part by part

  predicate Letter(c: char) { 'a' <= c <= 'z' || 'A' <= c <= 'Z' || c == '-' }

  predicate Digits(s: string)
  {
    s != "" && AllDigits(s)
  }

  predicate NumericText(s: string)
  {
    Digits(s) && (s == "0" || s[0] != '0')
  }

  predicate BuildText(s: string)
  {
    s != "" && forall c <- s :: Digit(c) || Letter(c)
  }

  predicate WordText(s: string)
  {
    BuildText(s) && exists c <- s :: Letter(c)
  }

  predicate Identifier(s: string)
  {
    NumericText(s) || WordText(s)
  }

  /** One way to read a string by the pattern; absent groups are empty sequences. */
  datatype Reading = Reading(major: string, minor: string, patch: string, pre: seq<string>, build: seq<string>)

  ghost predicate Admissible(r: Reading)
  {
    NumericText(r.major) && NumericText(r.minor) && NumericText(r.patch)
    && (forall i <- r.pre :: Identifier(i)) && (forall i <- r.build :: BuildText(i))
  }

  function Core(r: Reading): string
  {
    Implode([r.major, r.minor, r.patch], '.')
  }

  /** The text without build metadata, which is what parseTag returns. */
  function Text(r: Reading): string
  {
    Core(r) + if r.pre == [] then "" else "-" + Implode(r.pre, '.')
  }

  function FullText(r: Reading): string
  {
    Text(r) + if r.build == [] then "" else "+" + Implode(r.build, '.')
  }

  // ---------------------------------------------------------------- parseTag

  function StripTag(value: string): string
  {
    if |value| > 0 && value[0] == 'v' then value[1..] else value
  }

  function BeforeFirst(s: string, separator: char): string
  {
    match SplitFirst(s, separator) case Whole => s case Split(before, _) => before
  }

  function AfterFirst(s: string, separator: char): seq<string>
  {
    match SplitFirst(s, separator) case Whole => [] case Split(_, after) => Explode(after, '.')
  }

  /** The parts around the first plus sign and, before it, around the first hyphen. */
  function Read(s: string): Option<Reading>
  {
    var main := BeforeFirst(s, '+');
    var core := Explode(BeforeFirst(main, '-'), '.');
    if |core| != 3 then None
    else Some(Reading(core[0], core[1], core[2], AfterFirst(main, '-'), AfterFirst(s, '+')))
  }

  function ParseTag(value: string): Option<string>
  {
    match Read(StripTag(value))
    case None => None
    case Some(r) =>
      if NumericText(r.major) && NumericText(r.minor) && NumericText(r.patch)
         && (forall i <- r.pre :: Identifier(i)) && (forall i <- r.build :: BuildText(i))
      then Some(Text(r)) else None
  }

  lemma {:induction false} NotInImplode(parts: seq<string>, separator: char, c: char)
    requires c != separator && forall part <- parts :: c !in part
    ensures c !in Implode(parts, separator)
  {
    if |parts| > 1 {
      NotInImplode(parts[1..], separator, c);
    }
  }

  lemma ReadingParts(r: Reading)
    requires Admissible(r)
    ensures '-' !in Core(r) && '+' !in Core(r) && '+' !in Text(r)
    ensures Explode(Core(r), '.') == [r.major, r.minor, r.patch]
    ensures r.pre != [] ==> Explode(Implode(r.pre, '.'), '.') == r.pre
    ensures r.build != [] ==> Explode(Implode(r.build, '.'), '.') == r.build
  {
    var core := [r.major, r.minor, r.patch];
    assert forall part <- core :: NumericText(part);
    NotInImplode(core, '.', '-');
    NotInImplode(core, '.', '+');
    ExplodeImplode(core, '.');
    NotInImplode(r.pre, '.', '+');
    if r.pre != [] {
      ExplodeImplode(r.pre, '.');
    }
    if r.build != [] {
      ExplodeImplode(r.build, '.');
    }
  }

  /** A head, and behind the separator the dotted tail when there is one. */
  function Join(head: string, separator: char, tail: seq<string>): string
  {
    head + if tail == [] then "" else [separator] + Implode(tail, '.')
  }

  lemma SplitJoined(head: string, separator: char, tail: seq<string>)
    requires separator !in head && forall part <- tail :: '.' !in part
    ensures BeforeFirst(Join(head, separator, tail), separator) == head
    ensures AfterFirst(Join(head, separator, tail), separator) == tail
  {
    var s := Join(head, separator, tail);
    if tail == [] {
      assert s == head;
    } else {
      ExplodeImplode(tail, '.');
      assert s == head + [separator] + Implode(tail, '.');
      SplitFirstSeparated(head, Implode(tail, '.'), separator);
    }
  }

  lemma JoinSplit(s: string, separator: char)
    ensures Join(BeforeFirst(s, separator), separator, AfterFirst(s, separator)) == s
  {
  }

  lemma TextsAreJoins(r: Reading)
    ensures Text(r) == Join(Core(r), '-', r.pre) && FullText(r) == Join(Text(r), '+', r.build)
  {
  }

  /** Reading the text of an admissible reading gives that reading back, so the groups are unique. */
  lemma ReadFullText(r: Reading)
    requires Admissible(r)
    ensures Read(FullText(r)) == Some(r)
  {
    ReadingParts(r);
    TextsAreJoins(r);
    SplitJoined(Text(r), '+', r.build);
    SplitJoined(Core(r), '-', r.pre);
  }

  lemma ReadIsFullText(s: string)
    requires Read(s).Some?
    ensures FullText(Read(s).value) == s
  {
    var r := Read(s).value;
    var main := BeforeFirst(s, '+');
    JoinSplit(s, '+');
    JoinSplit(main, '-');
    var core := Explode(BeforeFirst(main, '-'), '.');
    assert core == [r.major, r.minor, r.patch];
    TextsAreJoins(r);
  }

  ghost predicate Reads(value: string, r: Reading)
  {
    Admissible(r) && StripTag(value) == FullText(r)
  }

  lemma ReadsParses(value: string, r: Reading)
    requires Reads(value, r)
    ensures ParseTag(value) == Some(Text(r))
  {
    ReadFullText(r);
  }

  /** The parser accepts exactly the strings the pattern matches, and returns the text of the match
      without build metadata. */
  lemma ParseTagMeetsPattern(value: string, text: string)
    ensures ParseTag(value) == Some(text) <==> exists r :: Reads(value, r) && Text(r) == text
    ensures ParseTag(value) == None <==> !exists r :: Reads(value, r)
  {
    if ParseTag(value).Some? {
      ReadIsFullText(StripTag(value));
      assert Reads(value, Read(StripTag(value)).value);
    }
    forall r | Reads(value, r) ensures ParseTag(value) == Some(Text(r)) {
      ReadsParses(value, r);
    }
  }

  lemma StripCanonical(r: Reading)
    requires Admissible(r)
    ensures StripTag(Text(r)) == Text(r)
  {
    assert Core(r)[0] == r.major[0];
    assert Digit(r.major[0]);
  }

  /** Parsing inverts printing, with or without the leading v and whatever the build metadata, and
      parsing its own result changes nothing. */
  lemma ParseTagInvertsPrinting(r: Reading)
    requires Admissible(r)
    ensures ParseTag(Text(r)) == Some(Text(r))
    ensures ParseTag("v" + FullText(r)) == Some(Text(r))
  {
    var bare := r.(build := []);
    StripCanonical(bare);
    assert FullText(bare) == Text(bare) == Text(r);
    ReadsParses(Text(r), bare);
    TagIsStripped(FullText(r));
    ReadsParses("v" + FullText(r), r);
  }

  lemma TagIsStripped(s: string)
    ensures StripTag("v" + s) == s
  {
  }

  lemma ParseTagIdempotent(value: string)
    requires ParseTag(value).Some?
    ensures ParseTag(ParseTag(value).value) == ParseTag(value)
  {
    ParseTagMeetsPattern(value, ParseTag(value).value);
    var r :| Reads(value, r) && Text(r) == ParseTag(value).value;
    ParseTagInvertsPrinting(r);
  }
}
