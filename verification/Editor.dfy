// The text input of the command-line client (input.rs). The source keeps a string and a byte offset;
// the specification is a zipper, the text left of the cursor and the text right of it.
module Editor {
  import opened Options
  import opened Strings

  // ---------------------------------------------------------------- bytes and characters

  /** Bytes of a character in UTF-8. */
  function Width(c: char): nat
  {
    if c as int < 0x80 then 1 else if c as int < 0x800 then 2 else if c as int < 0x1_0000 then 3 else 4
  }

  function Bytes(s: string): nat
  {
    if s == "" then 0 else Width(s[0]) + Bytes(s[1..])
  }

  lemma {:induction false} BytesConcat(s: string, t: string)
    ensures Bytes(s + t) == Bytes(s) + Bytes(t)
  {
    if s == "" {
      assert s + t == t;
    } else {
      assert (s + t)[1..] == s[1..] + t;
      BytesConcat(s[1..], t);
    }
  }

  /** The byte offset lies between two characters; slicing anywhere else panics. */
  ghost predicate Boundary(s: string, offset: nat)
  {
    exists i: nat | i <= |s| :: Bytes(s[..i]) == offset
  }

  function IndexAt(s: string, offset: nat): (i: nat)
    requires Boundary(s, offset)
    ensures i <= |s| && Bytes(s[..i]) == offset
  {
    if offset == 0 then 0
    else
      BoundaryStep(s, offset);
      var i := 1 + IndexAt(s[1..], offset - Width(s[0]));
      assert s[..i][1..] == s[1..][..i - 1];
      i
  }

  lemma BoundaryStep(s: string, offset: nat)
    requires Boundary(s, offset) && offset > 0
    ensures s != "" && offset >= Width(s[0]) && Boundary(s[1..], offset - Width(s[0]))
  {
    var i: nat :| i <= |s| && Bytes(s[..i]) == offset;
    assert i > 0;
    assert s[..i][1..] == s[1..][..i - 1];
  }

  /** &s[..offset]. */
  function Before(s: string, offset: nat): string
    requires Boundary(s, offset)
  {
    s[..IndexAt(s, offset)]
  }

  /** &s[offset..]. */
  function From(s: string, offset: nat): string
    requires Boundary(s, offset)
  {
    s[IndexAt(s, offset)..]
  }

  lemma {:induction false} SlicesAt(left: string, right: string)
    ensures Boundary(left + right, Bytes(left))
    ensures Before(left + right, Bytes(left)) == left && From(left + right, Bytes(left)) == right
  {
    var s := left + right;
    assert s[..|left|] == left;
    var i := IndexAt(s, Bytes(left));
    SameIndex(s, i, |left|);
  }

  lemma SameIndex(s: string, i: nat, j: nat)
    requires i <= |s| && j <= |s| && Bytes(s[..i]) == Bytes(s[..j])
    ensures i == j
  {
    if i < j {
      assert s[..j] == s[..i] + s[i..j];
      BytesConcat(s[..i], s[i..j]);
    } else if j < i {
      assert s[..i] == s[..j] + s[j..i];
      BytesConcat(s[..j], s[j..i]);
    }
  }

  // ---------------------------------------------------------------- pieces

  function Concat(pieces: seq<string>): string
  {
    if pieces == [] then "" else pieces[0] + Concat(pieces[1..])
  }

  lemma {:induction false} ConcatSplit(pieces: seq<string>, k: nat)
    requires k <= |pieces|
    ensures Concat(pieces) == Concat(pieces[..k]) + Concat(pieces[k..])
  {
    if k > 0 {
      ConcatSplit(pieces[1..], k - 1);
      assert pieces[..k][1..] == pieces[1..][..k - 1] && pieces[1..][k - 1..] == pieces[k..];
    } else {
      assert pieces[0..] == pieces;
    }
  }

  /** How text is divided into what the user sees as characters: nonempty pieces that make it up. */
  ghost predicate Segmentation(graphemes: string -> seq<string>)
  {
    forall t :: Concat(graphemes(t)) == t && forall p <- graphemes(t) :: p != ""
  }

  /** The first pieces of a text are divided alone as they are within it. */
  ghost predicate PrefixStable(graphemes: string -> seq<string>)
  {
    forall t, k | 0 <= k <= |graphemes(t)| :: graphemes(Concat(graphemes(t)[..k])) == graphemes(t)[..k]
  }

  function Take(pieces: seq<string>, k: nat): string
  {
    Concat(if k <= |pieces| then pieces[..k] else pieces)
  }

  lemma TakeIsPrefix(graphemes: string -> seq<string>, line: string, k: nat)
    requires Segmentation(graphemes)
    ensures Take(graphemes(line), k) <= line
    ensures PrefixStable(graphemes) ==>
              |graphemes(Take(graphemes(line), k))| == if k <= |graphemes(line)| then k else |graphemes(line)|
  {
    var pieces := graphemes(line);
    assert Concat(pieces) == line;
    if k <= |pieces| {
      ConcatSplit(pieces, k);
    }
  }

  // ---------------------------------------------------------------- the zipper

  const NEWLINE: char := '\n'

  const LIMIT: nat := 64 * 1024

  /** is_control, and the bidirectional overrides and isolates. */
  predicate Unprintable(c: char)
  {
    c as int < 0x20 || 0x7f <= c as int < 0xa0 || 0x202a <= c as int <= 0x202e || 0x2066 <= c as int <= 0x2069
  }

  function Clean(s: string): string
  {
    if s == "" then "" else [if Unprintable(s[0]) then ' ' else s[0]] + Clean(s[1..])
  }

  datatype Code = Char(c: char) | Up | Down | Left | Right | Home | End | Enter | Tab | Backspace | Delete | Other

  datatype Key = Key(control: bool, alt: bool, code: Code)

  datatype Rules = Rules(multiline: bool, graphemes: string -> seq<string>)

  /** The last line of what lies left of the cursor, and the first of what lies right of it. */
  function LastLine(left: string): string
  {
    var lines := Explode(left, NEWLINE);
    lines[|lines| - 1]
  }

  function FirstLine(right: string): string
  {
    Explode(right, NEWLINE)[0]
  }

  /** All lines but the last, and all but the first. */
  function LinesAbove(left: string): string
  {
    var lines := Explode(left, NEWLINE);
    Implode(lines[..|lines| - 1], NEWLINE)
  }

  function LinesBelow(right: string): string
  {
    Implode(Explode(right, NEWLINE)[1..], NEWLINE)
  }

  /** The text left of the last line. */
  function Higher(above: string): string
  {
    if Single(above) then "" else LinesAbove(above) + [NEWLINE]
  }

  predicate Single(s: string)
  {
    |Explode(s, NEWLINE)| == 1
  }

  /** The text from the line above onwards. */
  function UpTail(left: string, right: string): string
  {
    LastLine(LinesAbove(left)) + [NEWLINE] + (LastLine(left) + right)
  }

  /** The cursor in the first line of `tail`, behind at most as many pieces as the column says. */
  function Land(rules: Rules, column: nat, head: string, tail: string): Zipper
  {
    var taken := Take(rules.graphemes(FirstLine(tail)), column);
    Zipper(head + taken, Rest(tail, taken))
  }

  datatype Zipper = Zipper(left: string, right: string)
  {
    function Text(): string
    {
      left + right
    }

    function Insert(rules: Rules, text: string): Zipper
    {
      var added := if rules.multiline then text else Clean(text);
      if Bytes(Text()) + Bytes(added) > LIMIT then this else Zipper(left + added, right)
    }

    /** The text left of the cursor without its last piece, and that piece. */
    function Back(rules: Rules): (string, string)
    {
      var pieces := rules.graphemes(left);
      if pieces == [] then (left, "") else (Concat(pieces[..|pieces| - 1]), pieces[|pieces| - 1])
    }

    /** The first piece right of the cursor, and the text after it. */
    function Ahead(rules: Rules): (string, string)
    {
      var pieces := rules.graphemes(right);
      if pieces == [] then ("", right) else (pieces[0], Concat(pieces[1..]))
    }

    function Erased(rules: Rules): Zipper
    {
      Zipper(Back(rules).0, right)
    }

    function ErasedAhead(rules: Rules): Zipper
    {
      Zipper(left, Ahead(rules).1)
    }

    function Column(rules: Rules): nat
    {
      |rules.graphemes(LastLine(left))|
    }

    function LineDown(rules: Rules): Zipper
    {
      if Single(right) then this
      else Land(rules, Column(rules), left + FirstLine(right) + [NEWLINE], LinesBelow(right))
    }

    function LineUp(rules: Rules): Zipper
    {
      if Single(left) then this else Land(rules, Column(rules), Higher(LinesAbove(left)), UpTail(left, right))
    }

    function Press(rules: Rules, key: Key): Zipper
    {
      if key.control then
        match key.code
        case Char('u') => Zipper("", "")
        case Char('a') => Zipper("", Text())
        case Char('e') => Zipper(Text(), "")
        case _ => this
      else
        match key.code
        case Up => if rules.multiline then LineUp(rules) else this
        case Down => if rules.multiline then LineDown(rules) else this
        case Enter => if rules.multiline then Insert(rules, [NEWLINE]) else this
        case Tab => if rules.multiline then Insert(rules, "\t") else this
        case Char(c) => if key.alt then this else Insert(rules, [c])
        case Left => Zipper(Back(rules).0, Back(rules).1 + right)
        case Right => Zipper(left + Ahead(rules).0, Ahead(rules).1)
        case Home => Zipper("", Text())
        case End => Zipper(Text(), "")
        case Backspace => Erased(rules)
        case Delete => ErasedAhead(rules)
        case Other => this
    }
  }

  /** What follows a prefix. */
  function Rest(s: string, prefix: string): string
  {
    if |prefix| <= |s| then s[|prefix|..] else ""
  }

  // ---------------------------------------------------------------- lines and newlines

  lemma {:induction false} ImplodeSnoc(parts: seq<string>, separator: char)
    requires |parts| > 1
    ensures Implode(parts, separator) == Implode(parts[..|parts| - 1], separator) + [separator] + parts[|parts| - 1]
  {
    var init := parts[..|parts| - 1];
    if |parts| > 2 {
      ImplodeSnoc(parts[1..], separator);
      assert parts[1..][..|parts| - 2] == init[1..];
    }
  }

  lemma SplitLastLine(left: string)
    requires !Single(left)
    ensures left == LinesAbove(left) + [NEWLINE] + LastLine(left) && NEWLINE !in LastLine(left)
    ensures Explode(LinesAbove(left), NEWLINE) + [LastLine(left)] == Explode(left, NEWLINE)
  {
    var lines := Explode(left, NEWLINE);
    ImplodeSnoc(lines, NEWLINE);
    ExplodeImplode(lines[..|lines| - 1], NEWLINE);
  }

  lemma SplitFirstLine(right: string)
    requires !Single(right)
    ensures right == FirstLine(right) + [NEWLINE] + LinesBelow(right) && NEWLINE !in FirstLine(right)
    ensures [FirstLine(right)] + Explode(LinesBelow(right), NEWLINE) == Explode(right, NEWLINE)
  {
    var lines := Explode(right, NEWLINE);
    ExplodeImplode(lines[1..], NEWLINE);
  }

  lemma SingleLine(s: string)
    requires Single(s)
    ensures NEWLINE !in s && LastLine(s) == s && FirstLine(s) == s
  {
  }

  /** rfind and find of a newline, as byte offsets. */
  function RFind(s: string): Option<nat>
  {
    if s == "" then None
    else if s[|s| - 1] == NEWLINE then Some(Bytes(s[..|s| - 1]))
    else RFind(s[..|s| - 1])
  }

  function Find(s: string): Option<nat>
  {
    if s == "" then None
    else if s[0] == NEWLINE then Some(0)
    else match Find(s[1..]) case None => None case Some(n) => Some(Width(s[0]) + n)
  }

  lemma {:induction false} RFindAt(above: string, line: string)
    requires NEWLINE !in line
    ensures RFind(above + [NEWLINE] + line) == Some(Bytes(above))
  {
    var s := above + [NEWLINE] + line;
    if line == "" {
      assert s[..|s| - 1] == above;
    } else {
      assert s[..|s| - 1] == above + [NEWLINE] + line[..|line| - 1];
      RFindAt(above, line[..|line| - 1]);
    }
  }

  lemma {:induction false} RFindNone(line: string)
    requires NEWLINE !in line
    ensures RFind(line) == None
  {
    if line != "" {
      RFindNone(line[..|line| - 1]);
    }
  }

  lemma {:induction false} FindAt(line: string, below: string)
    requires NEWLINE !in line
    ensures Find(line + [NEWLINE] + below) == Some(Bytes(line))
  {
    var s := line + [NEWLINE] + below;
    if line != "" {
      assert s[1..] == line[1..] + [NEWLINE] + below;
      FindAt(line[1..], below);
    }
  }

  lemma {:induction false} FindNone(line: string)
    requires NEWLINE !in line
    ensures Find(line) == None
  {
    if line != "" {
      FindNone(line[1..]);
    }
  }

  // ---------------------------------------------------------------- the input, in bytes

  lemma Parts(value: string, offset: nat)
    requires Boundary(value, offset)
    ensures value == Before(value, offset) + From(value, offset) && offset == Bytes(Before(value, offset))
    ensures Bytes(value) == offset + Bytes(From(value, offset))
  {
    BytesConcat(Before(value, offset), From(value, offset));
  }

  lemma BackAndAhead(z: Zipper, rules: Rules)
    requires Segmentation(rules.graphemes)
    ensures z.Back(rules).0 + z.Back(rules).1 == z.left && z.Ahead(rules).0 + z.Ahead(rules).1 == z.right
  {
    var back, ahead := rules.graphemes(z.left), rules.graphemes(z.right);
    if back != [] {
      ConcatSplit(back, |back| - 1);
      assert Concat(back[|back| - 1..]) == back[|back| - 1];
    }
    assert Concat(ahead) == z.right;
  }

  lemma CutBefore(value: string, left: string, piece: string, right: string)
    requires value == left + piece + right
    ensures value == left + (piece + right) && Boundary(value, Bytes(left)) && Before(value, Bytes(left)) == left
  {
    assert value == left + (piece + right);
    SlicesAt(left, piece + right);
  }

  lemma CutAfter(value: string, left: string, piece: string, right: string)
    requires value == left + (piece + right)
    ensures value == left + piece + right
    ensures Boundary(value, Bytes(left + piece)) && From(value, Bytes(left + piece)) == right
  {
    assert value == left + piece + right;
    SlicesAt(left + piece, right);
  }

  /** rfind('\n').map_or(0, |n| n + 1). */
  method StartOfLine(text: string) returns (start: nat)
    ensures start == Bytes(Higher(text)) && Boundary(text, start) && From(text, start) == LastLine(text)
  {
    LineStart(text);
    start := match RFind(text) case None => 0 case Some(n) => n + 1;
  }

  class Input {
    var value: string
    var cursor: nat
    const rules: Rules

    /** The cursor is a character boundary, so no slice panics. */
    ghost predicate Valid()
      reads this
    {
      Boundary(value, cursor) && Segmentation(rules.graphemes)
    }

    ghost function View(): Zipper
      requires Valid()
      reads this
    {
      Zipper(Before(value, cursor), From(value, cursor))
    }

    constructor (value: string, multiline: bool, graphemes: string -> seq<string>)
      requires Segmentation(graphemes)
      ensures Valid() && View() == Zipper(value, "") && rules == Rules(multiline, graphemes)
    {
      SlicesAt(value, "");
      assert value + "" == value;
      this.value, cursor, rules := value, Bytes(value), Rules(multiline, graphemes);
    }

    /** Puts the cursor after a part of the text. */
    method Place(offset: nat, ghost left: string, ghost right: string)
      requires Segmentation(rules.graphemes) && value == left + right && offset == Bytes(left)
      modifies this`cursor
      ensures Valid() && View() == Zipper(left, right)
    {
      SlicesAt(left, right);
      cursor := offset;
    }

    method TryInsert(text: string) returns (ok: bool)
      requires Valid()
      modifies this
      ensures Valid() && View() == old(View()).Insert(rules, text)
      ensures ok <==> Bytes(old(value)) + Bytes(if rules.multiline then text else Clean(text)) <= LIMIT
      ensures ok ==> var added := if rules.multiline then text else Clean(text);
                     value == Before(old(value), old(cursor)) + added + From(old(value), old(cursor))
                     && cursor == old(cursor) + Bytes(added)
      ensures !ok ==> value == old(value) && cursor == old(cursor)
    {
      var added := if rules.multiline then text else Clean(text);
      Parts(value, cursor);
      if Bytes(value) + Bytes(added) > LIMIT {
        return false;
      }
      var left, right := Before(value, cursor), From(value, cursor);
      BytesConcat(left, added);
      value := left + added + right;
      Place(cursor + Bytes(added), left + added, right);
      ok := true;
    }

    method Previous() returns (offset: nat)
      requires Valid()
      ensures offset == Bytes(View().Back(rules).0)
    {
      var pieces := rules.graphemes(Before(value, cursor));
      assert Concat(pieces) == Before(value, cursor);
      offset := if pieces == [] then 0 else Bytes(Concat(pieces[..|pieces| - 1]));
    }

    method Next() returns (offset: nat)
      requires Valid()
      ensures offset == Bytes(View().left + View().Ahead(rules).0)
    {
      var pieces := rules.graphemes(From(value, cursor));
      Parts(value, cursor);
      BytesConcat(View().left, View().Ahead(rules).0);
      offset := if pieces == [] then cursor else cursor + Bytes(pieces[0]);
    }

    method Erase()
      requires Valid()
      modifies this
      ensures Valid() && View() == old(View()).Erased(rules)
    {
      var previous := Previous();
      ghost var z := View();
      Parts(value, cursor);
      BackAndAhead(z, rules);
      var right := From(value, cursor);
      CutBefore(value, z.Back(rules).0, z.Back(rules).1, right);
      value := Before(value, previous) + right;
      Place(previous, z.Back(rules).0, right);
    }

    method EraseAhead()
      requires Valid()
      modifies this
      ensures Valid() && View() == old(View()).ErasedAhead(rules)
    {
      var next := Next();
      ghost var z := View();
      Parts(value, cursor);
      BackAndAhead(z, rules);
      var left := Before(value, cursor);
      CutAfter(value, left, z.Ahead(rules).0, z.Ahead(rules).1);
      value := left + From(value, next);
      Place(cursor, left, z.Ahead(rules).1);
    }

    method StepLeft()
      requires Valid()
      modifies this`cursor
      ensures Valid() && View() == Zipper(old(View()).Back(rules).0, old(View()).Back(rules).1 + old(View()).right)
    {
      var previous := Previous();
      ghost var z := View();
      Parts(value, cursor);
      BackAndAhead(z, rules);
      CutBefore(value, z.Back(rules).0, z.Back(rules).1, z.right);
      Place(previous, z.Back(rules).0, z.Back(rules).1 + z.right);
    }

    method StepRight()
      requires Valid()
      modifies this`cursor
      ensures Valid() && View() == Zipper(old(View()).left + old(View()).Ahead(rules).0, old(View()).Ahead(rules).1)
    {
      var next := Next();
      ghost var z := View();
      Parts(value, cursor);
      BackAndAhead(z, rules);
      CutAfter(value, z.left, z.Ahead(rules).0, z.Ahead(rules).1);
      Place(next, z.left + z.Ahead(rules).0, z.Ahead(rules).1);
    }

    method ToStart()
      requires Valid()
      modifies this`cursor
      ensures Valid() && View() == Zipper("", old(View()).Text())
    {
      Parts(value, cursor);
      assert "" + value == value;
      Place(0, "", value);
    }

    method ToEnd()
      requires Valid()
      modifies this`cursor
      ensures Valid() && View() == Zipper(old(View()).Text(), "")
    {
      Parts(value, cursor);
      assert value + "" == value;
      Place(Bytes(value), value, "");
    }

    method Clear()
      requires Valid()
      modifies this
      ensures Valid() && View() == Zipper("", "")
    {
      value := "";
      assert "" + "" == "";
      Place(0, "", "");
    }

    method HandleControl(code: Code)
      requires Valid()
      modifies this
      ensures Valid() && View() == old(View()).Press(rules, Key(true, false, code))
    {
      match code
      case Char(c) =>
        if c == 'u' {
          Clear();
        } else if c == 'a' {
          ToStart();
        } else if c == 'e' {
          ToEnd();
        }
      case _ =>
    }

    method Handle(key: Key)
      requires Valid()
      modifies this
      ensures Valid() && View() == old(View()).Press(rules, key)
    {
      if key.control {
        HandleControl(key.code);
        return;
      }
      match key.code
      case Up => if rules.multiline { MoveLine(false); }
      case Down => if rules.multiline { MoveLine(true); }
      case Enter => if rules.multiline { var _ := TryInsert([NEWLINE]); }
      case Tab => if rules.multiline { var _ := TryInsert("\t"); }
      case Char(c) => if !key.alt { var _ := TryInsert([c]); }
      case Left => StepLeft();
      case Right => StepRight();
      case Home => ToStart();
      case End => ToEnd();
      case Backspace => Erase();
      case Delete => EraseAhead();
      case Other =>
    }

    /** The last statement of move_line. */
    method Arrive(target: nat, column: nat, ghost head: string, ghost tail: string)
      requires Segmentation(rules.graphemes) && value == head + tail && target == Bytes(head)
      modifies this`cursor
      ensures Valid() && View() == Land(rules, column, head, tail)
    {
      SlicesAt(head, tail);
      var taken := Take(rules.graphemes(FirstLine(From(value, target))), column);
      Landed(rules, column, head, tail);
      BytesConcat(head, taken);
      Place(target + Bytes(taken), Land(rules, column, head, tail).left, Land(rules, column, head, tail).right);
    }

    method MoveLine(down: bool)
      requires Valid()
      modifies this`cursor
      ensures Valid() && View() == if down then old(View()).LineDown(rules) else old(View()).LineUp(rules)
    {
      var start := StartOfLine(Before(value, cursor));
      var column := |rules.graphemes(From(Before(value, cursor), start))|;
      if down {
        MoveDown(column);
      } else {
        MoveUp(start, column);
      }
    }

    method MoveDown(column: nat)
      requires Valid() && column == View().Column(rules)
      modifies this`cursor
      ensures Valid() && View() == old(View()).LineDown(rules)
    {
      ghost var left, right := View().left, View().right;
      Parts(value, cursor);
      LineEnd(right);
      var next := Find(From(value, cursor));
      if next.None? {
        return;
      }
      BelowStarts(left, right);
      Arrive(cursor + next.value + 1, column, left + FirstLine(right) + [NEWLINE], LinesBelow(right));
    }

    method MoveUp(start: nat, column: nat)
      requires Valid() && column == View().Column(rules) && start == Bytes(Higher(View().left))
      modifies this`cursor
      ensures Valid() && View() == old(View()).LineUp(rules)
    {
      HigherStarts(Before(value, cursor));
      if start == 0 {
        return;
      }
      Parts(value, cursor);
      ArriveAbove(start - 1, column, View().left, View().right);
    }

    method ArriveAbove(end: nat, column: nat, ghost left: string, ghost right: string)
      requires Segmentation(rules.graphemes) && value == left + right && !Single(left) && end == Bytes(LinesAbove(left))
      modifies this`cursor
      ensures Valid() && View() == Land(rules, column, Higher(LinesAbove(left)), UpTail(left, right))
    {
      UpStarts(value, left, right);
      var target := StartOfLine(Before(value, end));
      Arrive(target, column, Higher(LinesAbove(left)), UpTail(left, right));
    }
  }

  lemma HigherStarts(left: string)
    ensures Bytes(Higher(left)) == if Single(left) then 0 else Bytes(LinesAbove(left)) + 1
  {
    BytesConcat(LinesAbove(left), [NEWLINE]);
  }

  lemma UpStarts(value: string, left: string, right: string)
    requires value == left + right && !Single(left)
    ensures var above := LinesAbove(left);
            && Boundary(value, Bytes(above)) && Before(value, Bytes(above)) == above
            && value == Higher(above) + UpTail(left, right)
  {
    AboveStarts(left, right);
  }

  function Start(newline: Option<nat>): nat
  {
    match newline case None => 0 case Some(n) => n + 1
  }

  /** Where the current line starts. */
  lemma LineStart(left: string)
    ensures Single(left) ==> RFind(left) == None
    ensures !Single(left) ==> RFind(left) == Some(Bytes(LinesAbove(left)))
    ensures var start := Start(RFind(left));
            start == Bytes(Higher(left)) && Boundary(left, start) && From(left, start) == LastLine(left)
  {
    HigherSplits(left);
    SlicesAt(Higher(left), LastLine(left));
    if Single(left) {
      SingleLine(left);
      RFindNone(left);
    } else {
      SplitLastLine(left);
      RFindAt(LinesAbove(left), LastLine(left));
      BytesConcat(LinesAbove(left), [NEWLINE]);
    }
  }

  lemma LineEnd(right: string)
    ensures Single(right) ==> Find(right) == None
    ensures !Single(right) ==> Find(right) == Some(Bytes(FirstLine(right)))
  {
    if Single(right) {
      SingleLine(right);
      FindNone(right);
    } else {
      SplitFirstLine(right);
      FindAt(FirstLine(right), LinesBelow(right));
    }
  }

  lemma BelowStarts(left: string, right: string)
    requires !Single(right)
    ensures left + right == left + FirstLine(right) + [NEWLINE] + LinesBelow(right)
    ensures Bytes(left) + Bytes(FirstLine(right)) + 1 == Bytes(left + FirstLine(right) + [NEWLINE])
  {
    SplitFirstLine(right);
    JoinDown(left, FirstLine(right), LinesBelow(right));
  }

  lemma JoinDown(left: string, line: string, below: string)
    ensures left + (line + [NEWLINE] + below) == left + line + [NEWLINE] + below
    ensures Bytes(left) + Bytes(line) + 1 == Bytes(left + line + [NEWLINE])
  {
    BytesConcat(left, line);
    BytesConcat(left + line, [NEWLINE]);
  }

  lemma AboveStarts(left: string, right: string)
    requires !Single(left)
    ensures var above := LinesAbove(left);
            && Boundary(left + right, Bytes(above)) && Before(left + right, Bytes(above)) == above
            && left + right == Higher(above) + UpTail(left, right)
  {
    SplitLastLine(left);
    HigherSplits(LinesAbove(left));
    Regroup(LinesAbove(left), Higher(LinesAbove(left)), LastLine(LinesAbove(left)), LastLine(left), right);
  }

  lemma Regroup(above: string, higher: string, line: string, current: string, right: string)
    requires above == higher + line
    ensures Boundary(above + [NEWLINE] + current + right, Bytes(above))
    ensures Before(above + [NEWLINE] + current + right, Bytes(above)) == above
    ensures above + [NEWLINE] + current + right == higher + (line + [NEWLINE] + (current + right))
  {
    Flatten(above, current, right);
    SlicesAt(above, [NEWLINE] + current + right);
    Nest(higher, line, current, right);
  }

  lemma Flatten(above: string, current: string, right: string)
    ensures above + [NEWLINE] + current + right == above + ([NEWLINE] + current + right)
  {
  }

  lemma Nest(higher: string, line: string, current: string, right: string)
    ensures higher + line + [NEWLINE] + current + right == higher + (line + [NEWLINE] + (current + right))
  {
  }

  lemma HigherSplits(above: string)
    ensures above == Higher(above) + LastLine(above) && NEWLINE !in LastLine(above)
  {
    if Single(above) {
      SingleLine(above);
      assert "" + above == above;
    } else {
      SplitLastLine(above);
    }
  }

  lemma FirstLineIsPrefix(s: string)
    ensures FirstLine(s) <= s && NEWLINE !in FirstLine(s)
  {
    if Single(s) {
      SingleLine(s);
    } else {
      SplitFirstLine(s);
    }
  }

  lemma Landed(rules: Rules, column: nat, head: string, tail: string)
    requires Segmentation(rules.graphemes)
    ensures Land(rules, column, head, tail).Text() == head + tail
  {
    FirstLineIsPrefix(tail);
    TakeIsPrefix(rules.graphemes, FirstLine(tail), column);
    var taken := Take(rules.graphemes(FirstLine(tail)), column);
    PrefixRest(head, tail, taken);
  }

  lemma PrefixRest(head: string, tail: string, taken: string)
    requires taken <= tail
    ensures head + taken + Rest(tail, taken) == head + tail
  {
    assert taken + Rest(tail, taken) == tail;
  }

  // ---------------------------------------------------------------- rows and columns

  function Row(z: Zipper): nat
  {
    |Explode(z.left, NEWLINE)| - 1
  }

  function Lines(z: Zipper): seq<string>
  {
    Explode(z.Text(), NEWLINE)
  }

  lemma {:induction false} ExplodeAfterNewline(a: string, b: string)
    ensures Explode(a + [NEWLINE] + b, NEWLINE) == Explode(a, NEWLINE) + Explode(b, NEWLINE)
    decreases |a|
  {
    if Single(a) {
      SingleLine(a);
      ExplodeSeparated(a, b, NEWLINE);
    } else {
      SplitFirstLine(a);
      var first, rest := FirstLine(a), LinesBelow(a);
      ExplodeAfterNewline(rest, b);
      Nested(first, rest, b);
      ExplodeSeparated(first, rest + [NEWLINE] + b, NEWLINE);
      Associate([first], Explode(rest, NEWLINE), Explode(b, NEWLINE));
    }
  }

  lemma Associate(a: seq<string>, b: seq<string>, c: seq<string>)
    ensures a + (b + c) == a + b + c
  {
  }

  lemma Joined(above: string, line: string, more: string)
    ensures above + [NEWLINE] + line + more == above + [NEWLINE] + (line + more)
  {
  }

  lemma Nested(first: string, rest: string, more: string)
    ensures first + [NEWLINE] + rest + [NEWLINE] + more == first + [NEWLINE] + (rest + [NEWLINE] + more)
  {
  }

  lemma LastJoined(above: string, line: string)
    requires NEWLINE !in line
    ensures Explode(above + [NEWLINE] + line, NEWLINE) == Explode(above, NEWLINE) + [line]
    ensures LastLine(above + [NEWLINE] + line) == line
  {
    ExplodeAfterNewline(above, line);
    ExplodeWhole(line, NEWLINE);
  }

  /** Text appended without a newline belongs to the last line. */
  lemma Appended(left: string, more: string)
    requires NEWLINE !in more
    ensures |Explode(left + more, NEWLINE)| == |Explode(left, NEWLINE)| && LastLine(left + more) == LastLine(left) + more
  {
    if Single(left) {
      SingleLine(left);
      ExplodeWhole(left + more, NEWLINE);
    } else {
      SplitLastLine(left);
      LastJoined(LinesAbove(left), LastLine(left));
      LastJoined(LinesAbove(left), LastLine(left) + more);
      Joined(LinesAbove(left), LastLine(left), more);
    }
  }

  lemma RowsOfText(left: string, right: string)
    ensures Single(right) ==> |Explode(left, NEWLINE)| == |Explode(left + right, NEWLINE)|
    ensures !Single(right) ==>
              |Explode(left, NEWLINE)| < |Explode(left + right, NEWLINE)|
              && Explode(left + right, NEWLINE)[|Explode(left, NEWLINE)|] == FirstLine(LinesBelow(right))
  {
    if Single(right) {
      SingleLine(right);
      Appended(left, right);
    } else {
      SplitFirstLine(right);
      Appended(left, FirstLine(right));
      BelowStarts(left, right);
      ExplodeAfterNewline(left + FirstLine(right), LinesBelow(right));
    }
  }

  lemma LandsOnRow(rules: Rules, column: nat, head: string, tail: string)
    requires Segmentation(rules.graphemes) && PrefixStable(rules.graphemes) && LastLine(head) == ""
    ensures var z, line := Land(rules, column, head, tail), FirstLine(tail);
            && Row(z) == |Explode(head, NEWLINE)| - 1
            && z.Column(rules) == if column <= |rules.graphemes(line)| then column else |rules.graphemes(line)|
  {
    FirstLineIsPrefix(tail);
    TakeIsPrefix(rules.graphemes, FirstLine(tail), column);
    var taken := Take(rules.graphemes(FirstLine(tail)), column);
    assert NEWLINE !in taken;
    Appended(head, taken);
    assert "" + taken == taken;
  }

  lemma EndsWithNewline(text: string)
    ensures LastLine(text + [NEWLINE]) == ""
    ensures |Explode(text + [NEWLINE], NEWLINE)| == |Explode(text, NEWLINE)| + 1
  {
    ExplodeAfterNewline(text, "");
    assert text + [NEWLINE] + "" == text + [NEWLINE];
    assert Explode("", NEWLINE) == [""];
  }

  function Smaller(a: nat, b: nat): nat
  {
    if a <= b then a else b
  }

  /** The column is the number of pieces between the start of the cursor's line and the cursor. */
  lemma ColumnCounts(rules: Rules, z: Zipper)
    ensures z.Column(rules) == |rules.graphemes(Explode(z.left, NEWLINE)[Row(z)])|
    ensures Row(z) < |Lines(z)| && Explode(z.left, NEWLINE)[Row(z)] <= Lines(z)[Row(z)]
  {
    RowsOfText(z.left, z.right);
    LineContinues(z.left, z.right);
  }

  lemma LineContinues(left: string, right: string)
    ensures var row := |Explode(left, NEWLINE)| - 1;
            |Explode(left + right, NEWLINE)| > row && LastLine(left) <= Explode(left + right, NEWLINE)[row]
  {
    var first := FirstLine(right);
    FirstLineIsPrefix(right);
    Appended(left, first);
    if Single(right) {
      SingleLine(right);
    } else {
      BelowStarts(left, right);
      ExplodeAfterNewline(left + first, LinesBelow(right));
    }
  }

  /** Down keeps the text and moves exactly one line, or not at all on the last one, to the smaller of
      the old column and the length of the next line. */
  lemma DownMovesOneLine(rules: Rules, z: Zipper)
    requires Segmentation(rules.graphemes) && PrefixStable(rules.graphemes)
    ensures var d, lines := z.LineDown(rules), Lines(z);
            && d.Text() == z.Text()
            && (Row(z) == |lines| - 1 ==> d == z)
            && (Row(z) < |lines| - 1 ==>
                  Row(d) == Row(z) + 1 && d.Column(rules) == Smaller(z.Column(rules), |rules.graphemes(lines[Row(z) + 1])|))
  {
    RowsOfText(z.left, z.right);
    if !Single(z.right) {
      var head := z.left + FirstLine(z.right);
      BelowStarts(z.left, z.right);
      Landed(rules, z.Column(rules), head + [NEWLINE], LinesBelow(z.right));
      FirstLineIsPrefix(z.right);
      Appended(z.left, FirstLine(z.right));
      EndsWithNewline(head);
      LandsOnRow(rules, z.Column(rules), head + [NEWLINE], LinesBelow(z.right));
    }
  }

  /** And so does up. */
  lemma UpMovesOneLine(rules: Rules, z: Zipper)
    requires Segmentation(rules.graphemes) && PrefixStable(rules.graphemes)
    ensures var u, lines := z.LineUp(rules), Lines(z);
            && u.Text() == z.Text()
            && (Row(z) == 0 ==> u == z)
            && (Row(z) > 0 ==>
                  Row(z) <= |lines| && Row(u) == Row(z) - 1
                  && u.Column(rules) == Smaller(z.Column(rules), |rules.graphemes(lines[Row(z) - 1])|))
  {
    if !Single(z.left) {
      var above := LinesAbove(z.left);
      AboveStarts(z.left, z.right);
      Landed(rules, z.Column(rules), Higher(above), UpTail(z.left, z.right));
      HigherRow(above);
      TailLine(z.left, z.right);
      LandsOnRow(rules, z.Column(rules), Higher(above), UpTail(z.left, z.right));
      LineAbove(z.left, z.right);
    }
  }

  lemma HigherRow(above: string)
    ensures LastLine(Higher(above)) == "" && |Explode(Higher(above), NEWLINE)| == |Explode(above, NEWLINE)|
  {
    if Single(above) {
      assert Explode("", NEWLINE) == [""];
    } else {
      SplitLastLine(above);
      EndsWithNewline(LinesAbove(above));
    }
  }

  lemma TailLine(left: string, right: string)
    requires !Single(left)
    ensures FirstLine(UpTail(left, right)) == LastLine(LinesAbove(left))
  {
    HigherSplits(LinesAbove(left));
    ExplodeSeparated(LastLine(LinesAbove(left)), LastLine(left) + right, NEWLINE);
  }

  lemma LineAbove(left: string, right: string)
    requires !Single(left)
    ensures var lines, row := Explode(left + right, NEWLINE), |Explode(left, NEWLINE)| - 1;
            && 0 < row <= |lines| && lines[row - 1] == LastLine(LinesAbove(left))
            && row == |Explode(LinesAbove(left), NEWLINE)|
  {
    SplitLastLine(left);
    Joined(LinesAbove(left), LastLine(left), right);
    ExplodeAfterNewline(LinesAbove(left), LastLine(left) + right);
  }

  // ---------------------------------------------------------------- runs of keys and pastes

  datatype Action = Type(key: Key) | Paste(text: string)

  function After(rules: Rules, z: Zipper, actions: seq<Action>): Zipper
  {
    if actions == [] then z
    else
      var before := After(rules, z, actions[..|actions| - 1]);
      match actions[|actions| - 1]
      case Type(key) => before.Press(rules, key)
      case Paste(text) => before.Insert(rules, text)
  }

  predicate Edits(key: Key)
  {
    if key.control then key.code == Char('u')
    else key.code.Char? || key.code.Enter? || key.code.Tab? || key.code.Backspace? || key.code.Delete?
  }

  lemma DownKeepsText(rules: Rules, z: Zipper)
    requires Segmentation(rules.graphemes)
    ensures z.LineDown(rules).Text() == z.Text()
  {
    if !Single(z.right) {
      BelowStarts(z.left, z.right);
      Landed(rules, z.Column(rules), z.left + FirstLine(z.right) + [NEWLINE], LinesBelow(z.right));
    }
  }

  lemma UpKeepsText(rules: Rules, z: Zipper)
    requires Segmentation(rules.graphemes)
    ensures z.LineUp(rules).Text() == z.Text()
  {
    if !Single(z.left) {
      AboveStarts(z.left, z.right);
      Landed(rules, z.Column(rules), Higher(LinesAbove(z.left)), UpTail(z.left, z.right));
    }
  }

  lemma Regrouped(a: string, b: string, c: string)
    ensures a + (b + c) == a + b + c && "" + a == a && a + "" == a
  {
  }

  /** Keys that only move the cursor leave the text alone. */
  lemma MovesKeepText(rules: Rules, z: Zipper, key: Key)
    requires Segmentation(rules.graphemes) && !Edits(key)
    ensures z.Press(rules, key).Text() == z.Text()
  {
    Regrouped(z.Text(), "", "");
    if !key.control {
      match key.code
      case Up => UpKeepsText(rules, z);
      case Down => DownKeepsText(rules, z);
      case Left =>
        BackAndAhead(z, rules);
        Regrouped(z.Back(rules).0, z.Back(rules).1, z.right);
      case Right =>
        BackAndAhead(z, rules);
        Regrouped(z.left, z.Ahead(rules).0, z.Ahead(rules).1);
      case Home =>
      case End =>
      case Other =>
    }
  }

  predicate Within(after: Zipper, z: Zipper)
  {
    Bytes(after.Text()) <= LIMIT || Bytes(after.Text()) <= Bytes(z.Text())
  }

  lemma InsertKeepsLimit(rules: Rules, z: Zipper, text: string)
    ensures Within(z.Insert(rules, text), z)
  {
    var added := if rules.multiline then text else Clean(text);
    BytesConcat(z.left + added, z.right);
    BytesConcat(z.left, added);
    BytesConcat(z.left, z.right);
  }

  lemma Shorter(left: string, piece: string, right: string)
    ensures Bytes(left + right) <= Bytes(left + piece + right)
  {
    BytesConcat(left, right);
    BytesConcat(left + piece, right);
    BytesConcat(left, piece);
  }

  lemma ErasedIsWithin(rules: Rules, z: Zipper)
    requires Segmentation(rules.graphemes)
    ensures Within(z.Erased(rules), z)
  {
    BackAndAhead(z, rules);
    Shorter(z.Back(rules).0, z.Back(rules).1, z.right);
  }

  lemma ErasedAheadIsWithin(rules: Rules, z: Zipper)
    requires Segmentation(rules.graphemes)
    ensures Within(z.ErasedAhead(rules), z)
  {
    BackAndAhead(z, rules);
    Shorter(z.left, z.Ahead(rules).0, z.Ahead(rules).1);
    Regrouped(z.left, z.Ahead(rules).0, z.Ahead(rules).1);
  }

  lemma TypingKeepsLimit(rules: Rules, z: Zipper, key: Key)
    requires !key.control && (key.code.Enter? || key.code.Tab? || key.code.Char?)
    ensures Within(z.Press(rules, key), z)
  {
    match key.code
    case Enter => InsertKeepsLimit(rules, z, [NEWLINE]);
    case Tab => InsertKeepsLimit(rules, z, "\t");
    case Char(c) => InsertKeepsLimit(rules, z, [c]);
  }

  lemma NothingIsWithin(z: Zipper)
    ensures Within(Zipper("", ""), z)
  {
    assert Zipper("", "").Text() == "";
  }

  lemma PressKeepsLimit(rules: Rules, z: Zipper, key: Key)
    requires Segmentation(rules.graphemes)
    ensures Within(z.Press(rules, key), z)
  {
    if !Edits(key) {
      MovesKeepText(rules, z, key);
    } else if key.control {
      NothingIsWithin(z);
    } else if key.code.Backspace? {
      ErasedIsWithin(rules, z);
    } else if key.code.Delete? {
      ErasedAheadIsWithin(rules, z);
    } else {
      TypingKeepsLimit(rules, z, key);
    }
  }

  /** Whatever is typed and pasted, a text within 64 KiB stays within it, and a longer one never grows. */
  lemma {:induction false} RunsKeepLimit(rules: Rules, z: Zipper, actions: seq<Action>)
    requires Segmentation(rules.graphemes)
    ensures Within(After(rules, z, actions), z)
  {
    if actions != [] {
      RunsKeepLimit(rules, z, actions[..|actions| - 1]);
      var before := After(rules, z, actions[..|actions| - 1]);
      match actions[|actions| - 1]
      case Type(key) => PressKeepsLimit(rules, before, key);
      case Paste(text) => InsertKeepsLimit(rules, before, text);
    }
  }

  // ---------------------------------------------------------------- single-line inputs

  predicate Printable(s: string)
  {
    forall i | 0 <= i < |s| :: !Unprintable(s[i])
  }

  lemma {:induction false} CleanReplaces(s: string)
    ensures |Clean(s)| == |s| && forall i | 0 <= i < |s| :: Clean(s)[i] == if Unprintable(s[i]) then ' ' else s[i]
    ensures Printable(Clean(s))
  {
    if s != "" {
      CleanReplaces(s[1..]);
    }
  }

  lemma PrintableConcat(a: string, b: string)
    ensures Printable(a + b) <==> Printable(a) && Printable(b)
  {
    if Printable(a + b) {
      assert forall i | 0 <= i < |a| :: (a + b)[i] == a[i];
      assert forall i | 0 <= i < |b| :: (a + b)[|a| + i] == b[i];
    }
  }

  lemma InsertStaysPrintable(rules: Rules, z: Zipper, text: string)
    requires !rules.multiline && Printable(z.Text())
    ensures Printable(z.Insert(rules, text).Text())
  {
    CleanReplaces(text);
    PrintableConcat(z.left, z.right);
    PrintableConcat(z.left, Clean(text));
    PrintableConcat(z.left + Clean(text), z.right);
  }

  lemma ErasedStaysPrintable(rules: Rules, z: Zipper)
    requires Segmentation(rules.graphemes) && Printable(z.Text())
    ensures Printable(z.Erased(rules).Text()) && Printable(z.ErasedAhead(rules).Text())
  {
    BackAndAhead(z, rules);
    PrintableConcat(z.left, z.right);
    PrintableConcat(z.Back(rules).0, z.Back(rules).1);
    PrintableConcat(z.Ahead(rules).0, z.Ahead(rules).1);
    PrintableConcat(z.Back(rules).0, z.right);
    PrintableConcat(z.left, z.Ahead(rules).1);
  }

  lemma PressStaysPrintable(rules: Rules, z: Zipper, key: Key)
    requires Segmentation(rules.graphemes) && !rules.multiline && Printable(z.Text())
    ensures Printable(z.Press(rules, key).Text())
  {
    if !Edits(key) {
      MovesKeepText(rules, z, key);
    } else if key.control {
      assert z.Press(rules, key) == Zipper("", "");
    } else if key.code.Backspace? || key.code.Delete? {
      ErasedStaysPrintable(rules, z);
    } else if key.code.Char? {
      InsertStaysPrintable(rules, z, [key.code.c]);
    }
  }

  /** Nothing typed or pasted puts a control character or a bidirectional override, and so no line
      break, into a single-line input. */
  lemma {:induction false} RunsStayPrintable(rules: Rules, z: Zipper, actions: seq<Action>)
    requires Segmentation(rules.graphemes) && !rules.multiline && Printable(z.Text())
    ensures Printable(After(rules, z, actions).Text())
    ensures NEWLINE !in After(rules, z, actions).Text()
  {
    if actions != [] {
      RunsStayPrintable(rules, z, actions[..|actions| - 1]);
      var before := After(rules, z, actions[..|actions| - 1]);
      match actions[|actions| - 1]
      case Type(key) => PressStaysPrintable(rules, before, key);
      case Paste(text) => InsertStaysPrintable(rules, before, text);
    }
  }

  // ---------------------------------------------------------------- what the keys do, piece by piece

  /** Pieces are the same in the first and in the last part of a text as they are in the whole. */
  ghost predicate Stable(graphemes: string -> seq<string>)
  {
    forall t, k | 0 <= k <= |graphemes(t)| ::
      graphemes(Concat(graphemes(t)[..k])) == graphemes(t)[..k] && graphemes(Concat(graphemes(t)[k..])) == graphemes(t)[k..]
  }

  /** The cursor behind the first k pieces. */
  function Standing(pieces: seq<string>, k: nat): Zipper
    requires k <= |pieces|
  {
    Zipper(Concat(pieces[..k]), Concat(pieces[k..]))
  }

  function Plain(code: Code): Key
  {
    Key(false, false, code)
  }

  lemma BackAt(rules: Rules, t: string, k: nat)
    requires Segmentation(rules.graphemes) && Stable(rules.graphemes) && k <= |rules.graphemes(t)|
    ensures var pieces := rules.graphemes(t);
            Standing(pieces, k).Back(rules) == if k == 0 then ("", "") else (Concat(pieces[..k - 1]), pieces[k - 1])
  {
    var pieces := rules.graphemes(t);
    assert rules.graphemes(Concat(pieces[..k])) == pieces[..k];
    if k > 0 {
      assert pieces[..k][..k - 1] == pieces[..k - 1];
    }
  }

  lemma AheadAt(rules: Rules, t: string, k: nat)
    requires Segmentation(rules.graphemes) && Stable(rules.graphemes) && k <= |rules.graphemes(t)|
    ensures var pieces := rules.graphemes(t);
            Standing(pieces, k).Ahead(rules) == if k == |pieces| then ("", "") else (pieces[k], Concat(pieces[k + 1..]))
  {
    var pieces := rules.graphemes(t);
    assert rules.graphemes(Concat(pieces[k..])) == pieces[k..];
    if k < |pieces| {
      assert pieces[k..][1..] == pieces[k + 1..];
    }
  }

  lemma ConcatStep(pieces: seq<string>, k: nat)
    requires k < |pieces|
    ensures Concat(pieces[..k + 1]) == Concat(pieces[..k]) + pieces[k] && Concat(pieces[k..]) == pieces[k] + Concat(pieces[k + 1..])
  {
    ConcatSplit(pieces[..k + 1], k);
    assert pieces[..k + 1][..k] == pieces[..k] && pieces[..k + 1][k..] == [pieces[k]];
    assert Concat([pieces[k]]) == pieces[k] + Concat([]) by { assert [pieces[k]][1..] == []; }
    assert pieces[k..][1..] == pieces[k + 1..];
  }

  lemma WholeText(rules: Rules, t: string)
    requires Segmentation(rules.graphemes)
    ensures var pieces := rules.graphemes(t);
            Standing(pieces, 0) == Zipper("", t) && Standing(pieces, |pieces|) == Zipper(t, "")
            && forall k | 0 <= k <= |pieces| :: Standing(pieces, k).Text() == t
  {
    var pieces := rules.graphemes(t);
    assert pieces[..0] == [] && pieces[0..] == pieces && pieces[..|pieces|] == pieces && pieces[|pieces|..] == [];
    forall k | 0 <= k <= |pieces| ensures Standing(pieces, k).Text() == t {
      ConcatSplit(pieces, k);
    }
  }

  /** From behind the kth piece of a text, left and right go one piece back and ahead, home and end to
      its ends; none leaves the text. */
  lemma MovesByPieces(rules: Rules, t: string, k: nat)
    requires Segmentation(rules.graphemes) && Stable(rules.graphemes) && k <= |rules.graphemes(t)|
    ensures var pieces := rules.graphemes(t); var z := Standing(pieces, k);
            && z.Press(rules, Plain(Left)) == Standing(pieces, if k > 0 then k - 1 else 0)
            && z.Press(rules, Plain(Right)) == Standing(pieces, if k < |pieces| then k + 1 else k)
            && z.Press(rules, Plain(Home)) == Standing(pieces, 0)
            && z.Press(rules, Plain(End)) == Standing(pieces, |pieces|)
  {
    BackAt(rules, t, k);
    AheadAt(rules, t, k);
    WholeText(rules, t);
    StepsBetweenPieces(rules, rules.graphemes(t), k);
    EndsOfPieces(rules, rules.graphemes(t), k, t);
  }

  lemma EndsOfPieces(rules: Rules, pieces: seq<string>, k: nat, t: string)
    requires k <= |pieces| && Standing(pieces, k).Text() == t
    requires Standing(pieces, 0) == Zipper("", t) && Standing(pieces, |pieces|) == Zipper(t, "")
    ensures Standing(pieces, k).Press(rules, Plain(Home)) == Standing(pieces, 0)
    ensures Standing(pieces, k).Press(rules, Plain(End)) == Standing(pieces, |pieces|)
  {
  }

  ghost predicate Sees(rules: Rules, pieces: seq<string>, k: nat)
    requires k <= |pieces|
  {
    var z := Standing(pieces, k);
    z.Back(rules) == (if k == 0 then ("", "") else (Concat(pieces[..k - 1]), pieces[k - 1]))
    && z.Ahead(rules) == if k == |pieces| then ("", "") else (pieces[k], Concat(pieces[k + 1..]))
  }

  lemma StepsBetweenPieces(rules: Rules, pieces: seq<string>, k: nat)
    requires k <= |pieces| && Sees(rules, pieces, k)
    ensures Standing(pieces, k).Press(rules, Plain(Left)) == Standing(pieces, if k > 0 then k - 1 else 0)
    ensures Standing(pieces, k).Press(rules, Plain(Right)) == Standing(pieces, if k < |pieces| then k + 1 else k)
  {
    if k > 0 {
      ConcatStep(pieces, k - 1);
    } else {
      Regrouped("", "", Concat(pieces[k..]));
    }
    if k < |pieces| {
      ConcatStep(pieces, k);
    } else {
      assert pieces[k..] == [];
      Regrouped(Concat(pieces[..k]), "", "");
    }
  }

  /** There, backspace takes away exactly the piece before the cursor, and delete the one after it. */
  lemma ErasesOnePiece(rules: Rules, t: string, k: nat)
    requires Segmentation(rules.graphemes) && Stable(rules.graphemes) && k <= |rules.graphemes(t)|
    ensures var pieces := rules.graphemes(t); var z := Standing(pieces, k);
            && (k == 0 ==> z.Press(rules, Plain(Backspace)) == z)
            && (k > 0 ==> z.Press(rules, Plain(Backspace)) == Zipper(Concat(pieces[..k - 1]), Concat(pieces[k..])))
            && (k == |pieces| ==> z.Press(rules, Plain(Delete)) == z)
            && (k < |pieces| ==> z.Press(rules, Plain(Delete)) == Zipper(Concat(pieces[..k]), Concat(pieces[k + 1..])))
  {
    BackAt(rules, t, k);
    AheadAt(rules, t, k);
    ErasesBetweenPieces(rules, rules.graphemes(t), k);
  }

  lemma ErasesBetweenPieces(rules: Rules, pieces: seq<string>, k: nat)
    requires k <= |pieces| && Sees(rules, pieces, k)
    ensures var z := Standing(pieces, k);
            && z.Press(rules, Plain(Backspace)) == (if k == 0 then z else Zipper(Concat(pieces[..k - 1]), Concat(pieces[k..])))
            && z.Press(rules, Plain(Delete)) == if k == |pieces| then z else Zipper(Concat(pieces[..k]), Concat(pieces[k + 1..]))
  {
  }

  /** What is shown of a text that is typed or pasted. */
  function Shown(rules: Rules, text: string): string
  {
    if rules.multiline then text else Clean(text)
  }

  function Typed(text: string): seq<Action>
  {
    seq(|text|, i requires 0 <= i < |text| => Type(Plain(Char(text[i]))))
  }

  lemma {:induction false} CleanConcat(s: string, t: string)
    ensures Clean(s + t) == Clean(s) + Clean(t)
  {
    if s == "" {
      assert s + t == t;
    } else {
      assert (s + t)[1..] == s[1..] + t;
      CleanConcat(s[1..], t);
    }
  }

  /** Typing a text character by character writes it, in this order, left of the cursor. */
  lemma {:induction false} TypingWrites(rules: Rules, z: Zipper, text: string)
    requires Bytes(z.Text()) + Bytes(Shown(rules, text)) <= LIMIT
    ensures After(rules, z, Typed(text)) == Zipper(z.left + Shown(rules, text), z.right)
  {
    if text == "" {
      assert z.left + "" == z.left;
    } else {
      var init, c := text[..|text| - 1], text[|text| - 1];
      assert text == init + [c] && Typed(text)[..|text| - 1] == Typed(init);
      CleanConcat(init, [c]);
      var before := Zipper(z.left + Shown(rules, init), z.right);
      SizesAddUp(z, Shown(rules, init), Shown(rules, [c]));
      TypingWrites(rules, z, init);
      assert After(rules, z, Typed(text)) == before.Press(rules, Plain(Char(c)));
      Regrouped(z.left, Shown(rules, init), Shown(rules, [c]));
    }
  }

  lemma SizesAddUp(z: Zipper, a: string, b: string)
    ensures Bytes(Zipper(z.left + a, z.right).Text()) + Bytes(b) == Bytes(z.Text()) + Bytes(a + b)
    ensures Bytes(a) <= Bytes(a + b)
  {
    BytesConcat(z.left, z.right);
    BytesConcat(z.left, a);
    BytesConcat(z.left + a, z.right);
    BytesConcat(a, b);
  }

  /** A paste is all of its characters typed, or nothing at all when they do not fit. */
  lemma PasteIsTyping(rules: Rules, z: Zipper, text: string)
    ensures After(rules, z, [Paste(text)]) ==
              if Bytes(z.Text()) + Bytes(Shown(rules, text)) <= 65536 then After(rules, z, Typed(text)) else z
  {
    assert [Paste(text)][..0] == [];
    if Bytes(z.Text()) + Bytes(Shown(rules, text)) <= LIMIT {
      TypingWrites(rules, z, text);
    }
  }

  /** Backspace undoes a character that stands for itself and fits. */
  lemma BackspaceUndoesTyping(rules: Rules, z: Zipper, c: char)
    requires Segmentation(rules.graphemes) && Bytes(z.Text()) + Bytes(Shown(rules, [c])) <= LIMIT
    requires rules.graphemes(z.left + Shown(rules, [c])) == rules.graphemes(z.left) + [Shown(rules, [c])]
    ensures z.Press(rules, Plain(Char(c))).Press(rules, Plain(Backspace)) == z
  {
    var typed := z.Press(rules, Plain(Char(c)));
    assert typed == Zipper(z.left + Shown(rules, [c]), z.right);
    var pieces := rules.graphemes(typed.left);
    assert pieces[..|pieces| - 1] == rules.graphemes(z.left);
  }

  /** In a text of several lines, enter breaks the line at the cursor, which goes to the start of the new
      one, and tab types a tabulator. */
  lemma EnterBreaksLine(rules: Rules, z: Zipper)
    requires Segmentation(rules.graphemes) && rules.multiline && Bytes(z.Text()) + 1 <= LIMIT
    ensures var t := z.Press(rules, Plain(Enter));
            && Row(t) == Row(z) + 1 && t.Column(rules) == 0 && t.right == z.right
            && Lines(t) == Explode(z.left, NEWLINE) + Explode(z.right, NEWLINE)
    ensures z.Press(rules, Plain(Tab)) == After(rules, z, Typed("\t"))
  {
    var t := Zipper(z.left + [NEWLINE], z.right);
    assert Bytes([NEWLINE]) == 1 by { assert [NEWLINE][1..] == ""; }
    assert z.Press(rules, Plain(Enter)) == t;
    EndsWithNewline(z.left);
    ExplodeAfterNewline(z.left, z.right);
    NothingHasNoPieces(rules);
    assert Bytes("\t") == 1 by { assert "\t"[1..] == ""; }
    TypingWrites(rules, z, "\t");
  }

  lemma NothingHasNoPieces(rules: Rules)
    requires Segmentation(rules.graphemes)
    ensures rules.graphemes("") == []
  {
    var pieces := rules.graphemes("");
    assert Concat(pieces) == "" && forall p <- pieces :: p != "";
    PiecesOfNothing(pieces);
  }

  lemma PiecesOfNothing(pieces: seq<string>)
    requires forall p <- pieces :: p != ""
    ensures pieces != [] ==> Concat(pieces) != ""
  {
    if pieces != [] {
      assert pieces[0] in pieces;
    }
  }

  /** Control keys clear, or go to either end; nothing else has an effect with control, nor characters
      with alt, nor any line keys in a text of one line. */
  lemma OtherKeys(rules: Rules, z: Zipper, code: Code, alt: bool)
    ensures z.Press(rules, Key(true, alt, code)) ==
              if code == Char('u') then Zipper("", "")
              else if code == Char('a') then z.Press(rules, Plain(Home))
              else if code == Char('e') then z.Press(rules, Plain(End)) else z
    ensures code.Char? ==> z.Press(rules, Key(false, true, code)) == z
    ensures !code.Char? ==> z.Press(rules, Key(false, alt, code)) == z.Press(rules, Plain(code))
    ensures !rules.multiline && (code.Up? || code.Down? || code.Enter? || code.Tab?) ==> z.Press(rules, Plain(code)) == z
    ensures z.Press(rules, Plain(Other)) == z
  {
  }
}
