// PHP's explode and implode on a one-character separator, shared by every module that takes
// a path, a version or a credentials line apart.
module Strings {

  /** explode($separator, $s): always at least one part, and no part contains the separator. */
  function Explode(s: string, separator: char): (parts: seq<string>)
    ensures |parts| > 0
    ensures forall part <- parts :: separator !in part
    ensures Implode(parts, separator) == s
  {
    if s == "" then [""]
    else
      var rest := Explode(s[1..], separator);
      if s[0] == separator then
        ImplodeCons("", rest, separator);
        [""] + rest
      else
        var parts := [[s[0]] + rest[0]] + rest[1..];
        ImplodeHead(s[0], rest, separator);
        parts
  }

  /** implode($separator, $parts). */
  function Implode(parts: seq<string>, separator: char): string
  {
    if |parts| == 0 then ""
    else if |parts| == 1 then parts[0]
    else parts[0] + [separator] + Implode(parts[1..], separator)
  }

  lemma ImplodeCons(head: string, rest: seq<string>, separator: char)
    requires |rest| > 0
    ensures Implode([head] + rest, separator) == head + [separator] + Implode(rest, separator)
  {
    assert ([head] + rest)[1..] == rest;
  }

  lemma ImplodeHead(c: char, rest: seq<string>, separator: char)
    requires |rest| > 0
    ensures Implode([[c] + rest[0]] + rest[1..], separator) == [c] + Implode(rest, separator)
  {
    if |rest| == 1 {
      assert [[c] + rest[0]] + rest[1..] == [[c] + rest[0]];
    } else {
      ImplodeCons([c] + rest[0], rest[1..], separator);
      assert [rest[0]] + rest[1..] == rest;
      ImplodeCons(rest[0], rest[1..], separator);
    }
  }

  /** Splitting the printed form gives the parts back, whenever no part holds the separator. */
  lemma {:induction false} ExplodeImplode(parts: seq<string>, separator: char)
    requires |parts| > 0
    requires forall part <- parts :: separator !in part
    ensures Explode(Implode(parts, separator), separator) == parts
  {
    if |parts| == 1 {
      ExplodeWhole(parts[0], separator);
    } else {
      ExplodeImplode(parts[1..], separator);
      ExplodeSeparated(parts[0], Implode(parts[1..], separator), separator);
      assert parts == [parts[0]] + parts[1..];
    }
  }

  lemma {:induction false} ExplodeWhole(s: string, separator: char)
    requires separator !in s
    ensures Explode(s, separator) == [s]
  {
    if s != "" {
      ExplodeWhole(s[1..], separator);
      assert [s[0]] + s[1..] == s;
    }
  }

  lemma {:induction false} ExplodeSeparated(head: string, tail: string, separator: char)
    requires separator !in head
    ensures Explode(head + [separator] + tail, separator) == [head] + Explode(tail, separator)
  {
    var whole := head + [separator] + tail;
    if head == "" {
      assert whole[1..] == tail;
    } else {
      assert whole[1..] == head[1..] + [separator] + tail;
      ExplodeSeparated(head[1..], tail, separator);
      assert [head[0]] + head[1..] == head;
    }
  }

  /** The two halves around the first occurrence, as explode with a limit of two gives them. */
  datatype Halves = Whole | Split(before: string, after: string)

  function SplitFirst(s: string, separator: char): (h: Halves)
    ensures h.Whole? <==> separator !in s
    ensures h.Split? ==> separator !in h.before && s == h.before + [separator] + h.after
  {
    if s == "" then Whole
    else if s[0] == separator then Split("", s[1..])
    else match SplitFirst(s[1..], separator)
      case Whole => Whole
      case Split(before, after) => Split([s[0]] + before, after)
  }

  lemma {:induction false} SplitFirstSeparated(head: string, tail: string, separator: char)
    requires separator !in head
    ensures SplitFirst(head + [separator] + tail, separator) == Split(head, tail)
  {
    var whole := head + [separator] + tail;
    if head == "" {
      assert whole[1..] == tail;
    } else {
      assert whole[1..] == head[1..] + [separator] + tail;
      SplitFirstSeparated(head[1..], tail, separator);
      assert [head[0]] + head[1..] == head;
    }
  }
}
