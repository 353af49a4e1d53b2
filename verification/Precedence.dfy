// Semver::compare as PHP runs it, and the precedence order of Semantic Versioning 2.0.0, section 11.
module Precedence {
  import opened Options
  import opened Decimals
  import opened Strings
  import opened Semver

  function Spaceship(a: int, b: int): int
  {
    if a < b then -1 else if a > b then 1 else 0
  }

  // ---------------------------------------------------------------- section 11

  datatype Ident = Number(n: nat) | Word(text: string)

  datatype Version = Version(major: nat, minor: nat, patch: nat, pre: seq<Ident>)

  function First(a: int, b: int): int
  {
    if a != 0 then a else b
  }

  /** Lexical order by character code; a proper prefix comes first. */
  function CompareText(a: string, b: string): int
  {
    if a == "" || b == "" then Spaceship(|a|, |b|)
    else First(Spaceship(a[0] as int, b[0] as int), CompareText(a[1..], b[1..]))
  }

  function CompareIdent(a: Ident, b: Ident): int
  {
    match (a, b)
    case (Number(m), Number(n)) => Spaceship(m, n)
    case (Number(_), Word(_)) => -1
    case (Word(_), Number(_)) => 1
    case (Word(s), Word(t)) => CompareText(s, t)
  }

  function CompareFields(a: seq<Ident>, b: seq<Ident>): int
  {
    if a == [] || b == [] then Spaceship(|a|, |b|)
    else First(CompareIdent(a[0], b[0]), CompareFields(a[1..], b[1..]))
  }

  /** A version without pre-release comes after every pre-release of it. */
  function ComparePre(a: seq<Ident>, b: seq<Ident>): int
  {
    if a == [] || b == [] then Spaceship(|b|, |a|) else CompareFields(a, b)
  }

  function CompareVersion(v: Version, w: Version): int
  {
    First(Spaceship(v.major, w.major), First(Spaceship(v.minor, w.minor),
      First(Spaceship(v.patch, w.patch), ComparePre(v.pre, w.pre))))
  }

  lemma {:induction false} TextOrder(a: string, b: string, c: string)
    ensures -1 <= CompareText(a, b) <= 1 && CompareText(b, a) == -CompareText(a, b)
    ensures CompareText(a, b) == 0 <==> a == b
    ensures CompareText(a, b) <= 0 && CompareText(b, c) <= 0 ==> CompareText(a, c) <= 0
  {
    if a != "" && b != "" {
      if c != "" {
        TextOrder(a[1..], b[1..], c[1..]);
      } else {
        TextOrder(a[1..], b[1..], c);
      }
      assert a == [a[0]] + a[1..] && b == [b[0]] + b[1..];
    }
  }

  lemma IdentOrder(a: Ident, b: Ident, c: Ident)
    ensures -1 <= CompareIdent(a, b) <= 1 && CompareIdent(b, a) == -CompareIdent(a, b)
    ensures CompareIdent(a, b) == 0 <==> a == b
    ensures CompareIdent(a, b) <= 0 && CompareIdent(b, c) <= 0 ==> CompareIdent(a, c) <= 0
  {
    if a.Word? && b.Word? {
      TextOrder(a.text, b.text, if c.Word? then c.text else "");
    }
  }

  lemma {:induction false} FieldsOrder(a: seq<Ident>, b: seq<Ident>, c: seq<Ident>)
    ensures -1 <= CompareFields(a, b) <= 1 && CompareFields(b, a) == -CompareFields(a, b)
    ensures CompareFields(a, b) == 0 <==> a == b
    ensures CompareFields(a, b) <= 0 && CompareFields(b, c) <= 0 ==> CompareFields(a, c) <= 0
  {
    if a != [] && b != [] {
      if c != [] {
        IdentOrder(a[0], b[0], c[0]);
        IdentOrder(b[0], c[0], a[0]);
        IdentOrder(c[0], a[0], b[0]);
        FieldsOrder(a[1..], b[1..], c[1..]);
      } else {
        IdentOrder(a[0], b[0], b[0]);
        FieldsOrder(a[1..], b[1..], c);
      }
      assert a == [a[0]] + a[1..] && b == [b[0]] + b[1..];
    }
  }

  lemma PreOrder(a: seq<Ident>, b: seq<Ident>, c: seq<Ident>)
    ensures -1 <= ComparePre(a, b) <= 1 && ComparePre(b, a) == -ComparePre(a, b)
    ensures ComparePre(a, b) == 0 <==> a == b
    ensures ComparePre(a, b) <= 0 && ComparePre(b, c) <= 0 ==> ComparePre(a, c) <= 0
  {
    FieldsOrder(a, b, c);
  }

  /** Section 11 is a total order on parsed versions. */
  lemma PrecedenceIsTotalOrder(u: Version, v: Version, w: Version)
    ensures -1 <= CompareVersion(u, v) <= 1 && CompareVersion(v, u) == -CompareVersion(u, v)
    ensures CompareVersion(u, v) == 0 <==> u == v
    ensures CompareVersion(u, v) <= 0 && CompareVersion(v, w) <= 0 ==> CompareVersion(u, w) <= 0
    ensures CompareVersion(u, v) <= 0 && CompareVersion(v, w) < 0 ==> CompareVersion(u, w) < 0
    ensures CompareVersion(u, v) < 0 && CompareVersion(v, w) <= 0 ==> CompareVersion(u, w) < 0
  {
    PreOrder(u.pre, v.pre, w.pre);
    PreOrder(v.pre, w.pre, u.pre);
    PreOrder(w.pre, u.pre, v.pre);
  }

  function WithPreRelease(pre: seq<Ident>): Version
  {
    Version(1, 0, 0, pre)
  }

  /** The example of section 11: 1.0.0-alpha < 1.0.0-alpha.1 < 1.0.0-alpha.beta < 1.0.0-beta <
      1.0.0-beta.2 < 1.0.0-beta.11 < 1.0.0-rc.1 < 1.0.0, and that of the numbers: 1.0.0 < 2.0.0 < 2.1.0
      < 2.1.1. */
  lemma SectionElevenExamples(alpha: Ident, beta: Ident, rc: Ident)
    requires alpha == Word("alpha") && beta == Word("beta") && rc == Word("rc")
    ensures CompareVersion(WithPreRelease([alpha]), WithPreRelease([alpha, Number(1)])) == -1
    ensures CompareVersion(WithPreRelease([alpha, Number(1)]), WithPreRelease([alpha, beta])) == -1
    ensures CompareVersion(WithPreRelease([alpha, beta]), WithPreRelease([beta])) == -1
    ensures CompareVersion(WithPreRelease([beta]), WithPreRelease([beta, Number(2)])) == -1
    ensures CompareVersion(WithPreRelease([beta, Number(2)]), WithPreRelease([beta, Number(11)])) == -1
    ensures CompareVersion(WithPreRelease([beta, Number(11)]), WithPreRelease([rc, Number(1)])) == -1
    ensures CompareVersion(WithPreRelease([rc, Number(1)]), WithPreRelease([])) == -1
    ensures CompareVersion(WithPreRelease([]), Version(2, 0, 0, [])) == -1
    ensures CompareVersion(Version(2, 0, 0, []), Version(2, 1, 0, [])) == CompareVersion(Version(2, 1, 0, []), Version(2, 1, 1, [])) == -1
  {
    IdentOrder(alpha, alpha, alpha);
    IdentOrder(beta, beta, beta);
    assert CompareIdent(alpha, beta) == -1 && CompareIdent(beta, rc) == -1;
    FirstDecides(alpha, beta, [beta], []);
    FirstDecides(beta, rc, [Number(11)], [Number(1)]);
    SameHead(alpha, [], [Number(1)]);
    SameHead(alpha, [Number(1)], [beta]);
    SameHead(beta, [], [Number(2)]);
    SameHead(beta, [Number(2)], [Number(11)]);
    assert CompareFields([Number(1)], [beta]) == -1 && CompareFields([Number(2)], [Number(11)]) == -1;
  }

  lemma FirstDecides(x: Ident, y: Ident, a: seq<Ident>, b: seq<Ident>)
    requires CompareIdent(x, y) != 0
    ensures CompareFields([x] + a, [y] + b) == CompareIdent(x, y)
  {
  }

  lemma SameHead(x: Ident, a: seq<Ident>, b: seq<Ident>)
    requires CompareIdent(x, x) == 0
    ensures CompareFields([x] + a, [x] + b) == CompareFields(a, b)
  {
    assert ([x] + a)[1..] == a && ([x] + b)[1..] == b;
  }

  // ---------------------------------------------------------------- PHP's casts and comparisons

  /** (int) of a digit string, which saturates; parseTag leaves only digits where it is applied. */
  function IntCast(s: string): nat
  {
    if !Digits(s) then 0 else if Value(s) < MAX_INT then Value(s) else MAX_INT
  }

  predicate SignedDigits(s: string)
  {
    Digits(s) || (|s| > 0 && s[0] == '-' && Digits(s[1..]))
  }

  function SignedValue(s: string): int
    requires SignedDigits(s)
  {
    if s[0] == '-' then -(Value(s[1..]) as int) else Value(s)
  }

  function ExponentMark(s: string): nat
    ensures ExponentMark(s) <= |s|
  {
    if s == "" || s[0] == 'e' || s[0] == 'E' then 0 else 1 + ExponentMark(s[1..])
  }

  /** The numeric strings of PHP that consist of identifier characters only. */
  predicate PhpNumeric(s: string)
  {
    var k := ExponentMark(s);
    SignedDigits(s[..k]) && (k < |s| ==> SignedDigits(s[k + 1..]))
  }

  function PowerOfTen(e: int): real
    decreases if e < 0 then -e else e
  {
    if e == 0 then 1.0 else if e > 0 then 10.0 * PowerOfTen(e - 1) else PowerOfTen(e + 1) / 10.0
  }

  function Mantissa(s: string): int
    requires PhpNumeric(s)
  {
    SignedValue(s[..ExponentMark(s)])
  }

  function Exponent(s: string): int
    requires PhpNumeric(s)
  {
    var k := ExponentMark(s);
    if k < |s| then SignedValue(s[k + 1..]) else 0
  }

  function PhpValue(s: string): real
    requires PhpNumeric(s)
  {
    Mantissa(s) as real * PowerOfTen(Exponent(s))
  }

  /** The spaceship on two strings: as numbers when both are numeric, otherwise byte by byte. */
  function CompareStrings(l: string, r: string): int
  {
    if PhpNumeric(l) && PhpNumeric(r) then
      if PhpValue(l) < PhpValue(r) then -1 else if PhpValue(l) > PhpValue(r) then 1 else 0
    else CompareText(l, r)
  }

  // ---------------------------------------------------------------- Semver::compare

  function CompareNumbers(a: seq<string>, b: seq<string>): int
  {
    if a == [] || b == [] then 0
    else if IntCast(a[0]) != IntCast(b[0]) then Spaceship(IntCast(a[0]), IntCast(b[0]))
    else CompareNumbers(a[1..], b[1..])
  }

  function CompareIdentifiers(a: seq<string>, b: seq<string>): int
  {
    if a == [] && b == [] then 0
    else if a == [] then -1
    else if b == [] then 1
    else
      var l, r := a[0], b[0];
      if Digits(l) && Digits(r) then
        if IntCast(l) != IntCast(r) then Spaceship(IntCast(l), IntCast(r)) else CompareIdentifiers(a[1..], b[1..])
      else if Digits(l) != Digits(r) then
        if Digits(l) then -1 else 1
      else if l != r then CompareStrings(l, r)
      else CompareIdentifiers(a[1..], b[1..])
  }

  function CompareTexts(a: string, b: string): int
  {
    var aParts, bParts := SplitFirst(a, '-'), SplitFirst(b, '-');
    var numbers := CompareNumbers(Explode(BeforeFirst(a, '-'), '.'), Explode(BeforeFirst(b, '-'), '.'));
    if numbers != 0 then numbers
    else if aParts.Whole? || bParts.Whole? then
      if aParts.Whole? && bParts.Whole? then 0 else if aParts.Whole? then 1 else -1
    else CompareIdentifiers(Explode(aParts.after, '.'), Explode(bParts.after, '.'))
  }

  /** None is the exception for an invalid version. */
  function Compare(a: string, b: string): Option<int>
  {
    match (ParseTag(a), ParseTag(b))
    case (Some(x), Some(y)) => Some(CompareTexts(x, y))
    case _ => None
  }

  // ---------------------------------------------------------------- the code against the standard

  function IdentOf(s: string): Ident
  {
    if Digits(s) then Number(Value(s)) else Word(s)
  }

  function IdentsOf(pre: seq<string>): seq<Ident>
  {
    seq(|pre|, i requires 0 <= i < |pre| => IdentOf(pre[i]))
  }

  /** The version a reading denotes, and that version with every number cut off at the largest PHP integer. */
  ghost function Denotation(r: Reading): Version
    requires Admissible(r)
  {
    Version(Value(r.major), Value(r.minor), Value(r.patch), IdentsOf(r.pre))
  }

  function Cut(n: nat): nat
  {
    if n < MAX_INT then n else MAX_INT
  }

  function CutIdent(i: Ident): Ident
  {
    match i case Number(n) => Number(Cut(n)) case Word(_) => i
  }

  function CutIdents(pre: seq<Ident>): seq<Ident>
  {
    seq(|pre|, i requires 0 <= i < |pre| => CutIdent(pre[i]))
  }

  function Fields(pre: seq<string>): seq<Ident>
  {
    CutIdents(IdentsOf(pre))
  }

  function CutVersion(v: Version): Version
  {
    Version(Cut(v.major), Cut(v.minor), Cut(v.patch), CutIdents(v.pre))
  }

  /** PHP orders these two words otherwise than byte by byte: both are numbers to it, and the one that
      comes first as text is not the smaller number. */
  predicate MisorderedPair(x: string, y: string)
  {
    PhpNumeric(x) && PhpNumeric(y) && x != y
    && if CompareText(x, y) < 0 then PhpValue(x) >= PhpValue(y) else PhpValue(x) <= PhpValue(y)
  }

  /** The first two identifiers that compare takes for different are such a pair. */
  predicate MisorderedWords(a: seq<string>, b: seq<string>)
    decreases |a|
  {
    a != [] && b != []
    && if Digits(a[0]) && Digits(b[0]) then IntCast(a[0]) == IntCast(b[0]) && MisorderedWords(a[1..], b[1..])
       else if a[0] == b[0] then MisorderedWords(a[1..], b[1..])
       else !Digits(a[0]) && !Digits(b[0]) && MisorderedPair(a[0], b[0])
  }

  predicate SameNumbers(r: Reading, s: Reading)
  {
    IntCast(r.major) == IntCast(s.major) && IntCast(r.minor) == IntCast(s.minor) && IntCast(r.patch) == IntCast(s.patch)
  }

  /** Two versions whose comparison ends at two such words. */
  predicate Misordered(r: Reading, s: Reading)
  {
    SameNumbers(r, s) && MisorderedWords(r.pre, s.pre)
  }

  lemma PairCompares(x: string, y: string)
    requires x != y
    ensures CompareStrings(x, y) == CompareText(x, y) <==> !MisorderedPair(x, y)
    ensures MisorderedPair(x, y) <==> MisorderedPair(y, x)
    ensures -1 <= CompareText(x, y) <= 1 && CompareText(x, y) != 0
  {
    TextOrder(x, y, x);
  }

  lemma {:induction false} IdentifiersMeetFields(a: seq<string>, b: seq<string>)
    ensures CompareIdentifiers(a, b) == CompareFields(Fields(a), Fields(b)) <==> !MisorderedWords(a, b)
    decreases |a|
  {
    var x, y := Fields(a), Fields(b);
    if a != [] && b != [] {
      assert x[1..] == Fields(a[1..]) && y[1..] == Fields(b[1..]);
      IdentifiersMeetFields(a[1..], b[1..]);
      TextOrder(a[0], b[0], a[0]);
      if a[0] != b[0] {
        PairCompares(a[0], b[0]);
      }
    }
  }

  /** Two versions are compared as the precedence order compares them with numbers cut off at
      2^63 - 1, exactly unless their comparison ends at two misordered words. */
  lemma CompareMeetsPrecedence(a: string, b: string, r: Reading, s: Reading)
    requires Reads(a, r) && Reads(b, s)
    ensures Compare(a, b) == Some(CompareVersion(CutVersion(Denotation(r)), CutVersion(Denotation(s)))) <==> !Misordered(r, s)
  {
    ComparesParts(a, b, r, s);
    CutsComparesParts(r, s);
    NumbersMeet(r, s);
    if SameNumbers(r, s) && r.pre != [] && s.pre != [] {
      IdentifiersMeetFields(r.pre, s.pre);
    }
  }

  function LeadingNumbers(r: Reading, s: Reading): int
  {
    CompareNumbers([r.major, r.minor, r.patch], [s.major, s.minor, s.patch])
  }

  lemma ComparesParts(a: string, b: string, r: Reading, s: Reading)
    requires Reads(a, r) && Reads(b, s)
    ensures Compare(a, b) == Some(First(LeadingNumbers(r, s),
              if r.pre == [] || s.pre == [] then Spaceship(|s.pre|, |r.pre|) else CompareIdentifiers(r.pre, s.pre)))
  {
    ReadsParses(a, r);
    ReadsParses(b, s);
    TextsCompareParts(r, s);
  }

  lemma TextsCompareParts(r: Reading, s: Reading)
    requires Admissible(r) && Admissible(s)
    ensures CompareTexts(Text(r), Text(s)) == First(LeadingNumbers(r, s),
              if r.pre == [] || s.pre == [] then Spaceship(|s.pre|, |r.pre|) else CompareIdentifiers(r.pre, s.pre))
  {
    TextParts(r);
    TextParts(s);
  }

  lemma CutsComparesParts(r: Reading, s: Reading)
    requires Admissible(r) && Admissible(s)
    ensures CompareVersion(CutVersion(Denotation(r)), CutVersion(Denotation(s))) ==
              First(LeadingNumbers(r, s), ComparePre(Fields(r.pre), Fields(s.pre)))
    ensures LeadingNumbers(r, s) == 0 <==> SameNumbers(r, s)
  {
    NumbersMeet(r, s);
  }

  lemma TextParts(r: Reading)
    requires Admissible(r)
    ensures Explode(BeforeFirst(Text(r), '-'), '.') == [r.major, r.minor, r.patch]
    ensures SplitFirst(Text(r), '-').Whole? <==> r.pre == []
    ensures r.pre != [] ==> Explode(SplitFirst(Text(r), '-').after, '.') == r.pre
  {
    ReadingParts(r);
    TextsAreJoins(r);
    SplitJoined(Core(r), '-', r.pre);
    if r.pre == [] {
      assert Text(r) == Core(r);
    }
  }

  lemma NumbersMeet(r: Reading, s: Reading)
    requires Admissible(r) && Admissible(s)
    ensures CompareNumbers([r.major, r.minor, r.patch], [s.major, s.minor, s.patch]) ==
              First(Spaceship(Cut(Value(r.major)), Cut(Value(s.major))),
                First(Spaceship(Cut(Value(r.minor)), Cut(Value(s.minor))), Spaceship(Cut(Value(r.patch)), Cut(Value(s.patch)))))
  {
    assert [r.major] + [r.minor, r.patch] == [r.major, r.minor, r.patch];
    assert [s.major] + [s.minor, s.patch] == [s.major, s.minor, s.patch];
    assert [r.minor] + [r.patch] == [r.minor, r.patch] && [s.minor] + [s.patch] == [s.minor, s.patch];
    assert [r.patch] + [] == [r.patch] && [s.patch] + [] == [s.patch];
    NumbersCons(r.major, [r.minor, r.patch], s.major, [s.minor, s.patch]);
    NumbersCons(r.minor, [r.patch], s.minor, [s.patch]);
    NumbersCons(r.patch, [], s.patch, []);
  }

  lemma NumbersCons(a: string, more: seq<string>, b: string, others: seq<string>)
    requires NumericText(a) && NumericText(b)
    ensures CompareNumbers([a] + more, [b] + others) == First(Spaceship(Cut(Value(a)), Cut(Value(b))), CompareNumbers(more, others))
    ensures more == [] ==> CompareNumbers(more, others) == 0
  {
    assert ([a] + more)[1..] == more && ([b] + others)[1..] == others;
  }

  // ---------------------------------------------------------------- main results

  ghost predicate WellFormed(a: string)
  {
    exists r :: Reads(a, r)
  }

  ghost function ReadingOf(a: string): Reading
    requires WellFormed(a)
  {
    var r :| Reads(a, r);
    r
  }

  lemma ReadingIsUnique(a: string, r: Reading)
    requires Reads(a, r)
    ensures WellFormed(a) && ReadingOf(a) == r
  {
    ReadFullText(r);
    ReadFullText(ReadingOf(a));
  }

  /** Two versions that compare orders otherwise than the precedence order with cut numbers. */
  ghost predicate OutOfOrder(a: string, b: string)
  {
    WellFormed(a) && WellFormed(b) && Misordered(ReadingOf(a), ReadingOf(b))
  }

  /** What release() demands of a release over the version that is installed. */
  predicate NewerVersion(a: string, b: string)
  {
    Compare(a, b).Some? && Compare(a, b).value > 0
  }

  lemma ParsedIsWellFormed(a: string)
    ensures ParseTag(a).Some? <==> WellFormed(a)
  {
    if ParseTag(a).Some? {
      ParseTagMeetsPattern(a, ParseTag(a).value);
    } else {
      ParseTagMeetsPattern(a, "");
    }
  }

  lemma NewerIsWellFormed(a: string, b: string)
    ensures NewerVersion(a, b) ==> WellFormed(a) && WellFormed(b)
  {
    ParsedIsWellFormed(a);
    ParsedIsWellFormed(b);
  }

  ghost function Key(a: string): Version
    requires WellFormed(a)
  {
    CutVersion(Denotation(ReadingOf(a)))
  }

  lemma KeysCompare(a: string, b: string)
    requires WellFormed(a) && WellFormed(b)
    ensures Compare(a, b).Some?
    ensures Compare(a, b) == Some(CompareVersion(Key(a), Key(b))) <==> !OutOfOrder(a, b)
    ensures OutOfOrder(a, b) <==> OutOfOrder(b, a)
  {
    ParsedIsWellFormed(a);
    ParsedIsWellFormed(b);
    CompareMeetsPrecedence(a, b, ReadingOf(a), ReadingOf(b));
    OutOfOrderBothWays(a, b);
  }

  lemma OutOfOrderBothWays(a: string, b: string)
    ensures OutOfOrder(a, b) <==> OutOfOrder(b, a)
  {
    if WellFormed(a) && WellFormed(b) {
      MisorderedBothWays(ReadingOf(a).pre, ReadingOf(b).pre);
    }
  }

  lemma {:induction false} MisorderedBothWays(a: seq<string>, b: seq<string>)
    ensures MisorderedWords(a, b) <==> MisorderedWords(b, a)
    decreases |a|
  {
    if a != [] && b != [] {
      MisorderedBothWays(a[1..], b[1..]);
      if a[0] != b[0] {
        PairCompares(a[0], b[0]);
      }
    }
  }

  /** On versions of which no two are out of order compare is a total preorder. */
  lemma CompareIsTotalPreorder(a: string, b: string, c: string)
    requires WellFormed(a) && WellFormed(b) && WellFormed(c)
    requires !OutOfOrder(a, b) && !OutOfOrder(b, c) && !OutOfOrder(a, c)
    ensures Compare(a, b).Some? && Compare(b, a) == Some(-Compare(a, b).value)
    ensures Compare(a, a) == Some(0)
    ensures Compare(b, c).Some? && Compare(a, c).Some?
    ensures Compare(a, b).value <= 0 && Compare(b, c).value <= 0 ==> Compare(a, c).value <= 0
    ensures Compare(a, b).value < 0 && Compare(b, c).value <= 0 ==> Compare(a, c).value < 0
    ensures Compare(a, b).value <= 0 && Compare(b, c).value < 0 ==> Compare(a, c).value < 0
  {
    KeysCompare(a, b);
    KeysCompare(b, a);
    KeysCompare(b, c);
    KeysCompare(a, c);
    SameIsInOrder(ReadingOf(a).pre);
    KeysCompare(a, a);
    PrecedenceIsTotalOrder(Key(a), Key(b), Key(c));
    PrecedenceIsTotalOrder(Key(a), Key(a), Key(a));
  }

  lemma {:induction false} SameIsInOrder(a: seq<string>)
    ensures !MisorderedWords(a, a)
  {
    if a != [] {
      SameIsInOrder(a[1..]);
    }
  }

  // ---------------------------------------------------------------- exactly when newer is transitive

  lemma SignedEndsInDigit(s: string)
    requires SignedDigits(s)
    ensures s != "" && Digit(s[|s| - 1])
  {
    var digits := if Digits(s) then s else s[1..];
    assert digits[|digits| - 1] in digits && digits[|digits| - 1] == s[|s| - 1];
  }

  lemma HyphenEndsNoNumber(x: string)
    ensures !PhpNumeric(x + "-")
  {
    var s := x + "-";
    var k := ExponentMark(s);
    if PhpNumeric(s) {
      if k < |s| {
        SignedEndsInDigit(s[k + 1..]);
      } else {
        assert s[..k] == s;
        SignedEndsInDigit(s);
      }
    }
  }

  /** With a hyphen appended, the smallest character there is in a word, x is the next text after x. */
  lemma {:induction false} HyphenIsNext(x: string, y: string)
    requires CompareText(x, y) < 0 && y != x + "-" && forall c <- y :: '-' <= c
    ensures CompareText(x, x + "-") == -1 && CompareText(x + "-", y) == -1
  {
    if x == "" {
      assert "-"[1..] == "" && y[0] in y;
      if y[0] == '-' {
        assert y == "-" + y[1..];
      }
    } else {
      assert (x + "-")[1..] == x[1..] + "-" && y == [y[0]] + y[1..] && x == [x[0]] + x[1..];
      if x[0] == y[0] {
        assert y[1..] == x[1..] + "-" ==> y == x + "-";
        assert forall c <- y[1..] :: c in y;
        HyphenIsNext(x[1..], y[1..]);
      } else {
        TextOrder(x[1..] + "-", y[1..], y[1..]);
        HyphenIsLater(x[1..]);
      }
    }
  }

  lemma {:induction false} HyphenIsLater(x: string)
    ensures CompareText(x, x + "-") == -1
  {
    if x != "" {
      assert (x + "-")[1..] == x[1..] + "-";
      HyphenIsLater(x[1..]);
    }
  }

  lemma FieldsCons(x: string, more: seq<string>)
    ensures Fields([x] + more) == [CutIdent(IdentOf(x))] + Fields(more)
  {
  }

  lemma IdentifierCharacters(x: string)
    requires Identifier(x)
    ensures forall c <- x :: '-' <= c
  {
    forall c <- x ensures Digit(c) || Letter(c) {
    }
  }

  /** Something that comes after a and before b as text, in order with both. */
  lemma {:induction false} WordsBetween(a: seq<string>, b: seq<string>) returns (c: seq<string>)
    requires MisorderedWords(a, b) && CompareFields(Fields(a), Fields(b)) < 0
    requires (forall x <- a :: Identifier(x)) && (forall x <- b :: Identifier(x))
    ensures c != [] && (forall x <- c :: Identifier(x)) && !MisorderedWords(a, c) && !MisorderedWords(c, b)
    ensures CompareFields(Fields(a), Fields(c)) < 0 && CompareFields(Fields(c), Fields(b)) < 0
    ensures CompareIdentifiers(b, a) <= 0
    decreases |a|
  {
    var x, y := a[0], b[0];
    assert a == [x] + a[1..] && b == [y] + b[1..] && Identifier(x) && Identifier(y);
    FieldsCons(x, a[1..]);
    FieldsCons(y, b[1..]);
    if Digits(x) || x == y {
      TextOrder(x, x, x);
      var rest := WordsBetween(a[1..], b[1..]);
      c := [x] + rest;
      assert c[1..] == rest;
      FieldsCons(x, rest);
    } else {
      c := [x + "-"];
      PairCompares(x, y);
      WordBetween(x, y);
      assert c == [x + "-"] + [];
      FieldsCons(x + "-", []);
      PairCompares(y, x);
    }
  }

  lemma WordBetween(x: string, y: string)
    requires Identifier(x) && Identifier(y) && !Digits(x) && !Digits(y) && PhpNumeric(x) && PhpNumeric(y) && CompareText(x, y) < 0
    ensures var z := x + "-";
            Identifier(z) && !Digits(z) && !PhpNumeric(z) && z != x && z != y && CompareText(x, z) == -1 && CompareText(z, y) == -1
  {
    HyphenEndsNoNumber(x);
    IdentifierCharacters(y);
    HyphenIsNext(x, y);
    assert (x + "-")[|x|] == '-';
  }

  lemma MisorderedDiffer(a: seq<string>, b: seq<string>)
    requires MisorderedWords(a, b)
    ensures CompareFields(Fields(a), Fields(b)) != 0 && CompareFields(Fields(b), Fields(a)) == -CompareFields(Fields(a), Fields(b))
  {
    FieldsOrder(Fields(a), Fields(b), Fields(a));
    if Fields(a) == Fields(b) {
      SameFieldsAreInOrder(a, b);
    }
  }

  /** Identifiers that are equal once numbers are cut off are in order. */
  lemma {:induction false} SameFieldsAreInOrder(a: seq<string>, b: seq<string>)
    requires Fields(a) == Fields(b)
    ensures !MisorderedWords(a, b)
    decreases |a|
  {
    if a != [] {
      assert |Fields(a)| == |a| && |Fields(b)| == |b|;
      assert Fields(a)[0] == CutIdent(IdentOf(a[0])) && Fields(b)[0] == CutIdent(IdentOf(b[0]));
      assert Fields(a)[1..] == Fields(a[1..]) && Fields(b)[1..] == Fields(b[1..]);
      SameFieldsAreInOrder(a[1..], b[1..]);
    }
  }

  lemma SameNumbersCompareWords(a: string, b: string)
    requires OutOfOrder(a, b)
    ensures Compare(a, b) == Some(CompareIdentifiers(ReadingOf(a).pre, ReadingOf(b).pre))
    ensures CompareVersion(Key(a), Key(b)) == CompareFields(Fields(ReadingOf(a).pre), Fields(ReadingOf(b).pre))
  {
    var r, s := ReadingOf(a), ReadingOf(b);
    ComparesParts(a, b, r, s);
    CutsComparesParts(r, s);
  }

  /** With the numbers of r and these pre-release identifiers. */
  lemma WithPre(r: Reading, pre: seq<string>) returns (c: string)
    requires Admissible(r) && forall i <- pre :: Identifier(i)
    ensures Reads(c, r.(pre := pre, build := [])) && WellFormed(c) && ReadingOf(c) == r.(pre := pre, build := [])
  {
    var t := r.(pre := pre, build := []);
    c := Text(t);
    StripCanonical(t);
    ReadingIsUnique(c, t);
  }

  lemma KeysWithSameNumbers(a: string, b: string)
    requires WellFormed(a) && WellFormed(b) && SameNumbers(ReadingOf(a), ReadingOf(b))
    requires ReadingOf(a).pre != [] && ReadingOf(b).pre != []
    ensures CompareVersion(Key(a), Key(b)) == CompareFields(Fields(ReadingOf(a).pre), Fields(ReadingOf(b).pre))
  {
    CutsComparesParts(ReadingOf(a), ReadingOf(b));
  }

  lemma NewerByKey(a: string, b: string)
    requires WellFormed(a) && WellFormed(b) && !OutOfOrder(a, b)
    ensures NewerVersion(b, a) <==> CompareVersion(Key(a), Key(b)) < 0
  {
    KeysCompare(b, a);
    PrecedenceIsTotalOrder(Key(a), Key(b), Key(a));
  }

  /** A version that is newer than a and older than b, though b is not newer than a. */
  lemma VersionBetween(a: string, b: string) returns (c: string)
    requires OutOfOrder(a, b) && CompareVersion(Key(a), Key(b)) < 0
    ensures WellFormed(c) && !OutOfOrder(a, c) && !OutOfOrder(c, b)
    ensures NewerVersion(c, a) && NewerVersion(b, c) && !NewerVersion(b, a)
  {
    KeysCompare(a, b);
    SameNumbersCompareWords(a, b);
    SameNumbersCompareWords(b, a);
    var between := WordsBetween(ReadingOf(a).pre, ReadingOf(b).pre);
    c := WithPre(ReadingOf(a), between);
    KeysWithSameNumbers(a, c);
    KeysWithSameNumbers(c, b);
    NewerByKey(a, c);
    NewerByKey(c, b);
  }

  /** Through c, an update from one of a and b to the other is an update to a newer version. */
  predicate StepsJoin(a: string, c: string, b: string)
  {
    (NewerVersion(c, a) && NewerVersion(b, c) ==> NewerVersion(b, a))
    && (NewerVersion(c, b) && NewerVersion(a, c) ==> NewerVersion(a, b))
  }

  /** Newer is transitive between two versions, through every other that is in order with both,
      exactly if the two are in order. */
  lemma TransitiveExactly(a: string, b: string)
    requires WellFormed(a) && WellFormed(b)
    ensures (forall c | !OutOfOrder(a, c) && !OutOfOrder(c, b) :: StepsJoin(a, c, b)) <==> !OutOfOrder(a, b)
  {
    if OutOfOrder(a, b) {
      SameNumbersCompareWords(a, b);
      MisorderedDiffer(ReadingOf(a).pre, ReadingOf(b).pre);
      var c := DetourBetween(a, b);
      assert !StepsJoin(a, c, b);
    } else {
      forall c | !OutOfOrder(a, c) && !OutOfOrder(c, b) ensures StepsJoin(a, c, b) {
        NewerIsWellFormed(c, a);
        NewerIsWellFormed(c, b);
        if WellFormed(c) {
          OrderedStepsJoin(a, c, b);
        }
      }
    }
  }

  lemma OrderedStepsJoin(a: string, c: string, b: string)
    requires WellFormed(a) && WellFormed(b) && WellFormed(c)
    requires !OutOfOrder(a, c) && !OutOfOrder(c, b) && !OutOfOrder(a, b)
    ensures StepsJoin(a, c, b)
  {
    if NewerVersion(c, a) && NewerVersion(b, c) {
      NewerIsTransitive(a, c, b);
    }
    if NewerVersion(c, b) && NewerVersion(a, c) {
      KeysCompare(a, b);
      KeysCompare(a, c);
      KeysCompare(c, b);
      NewerIsTransitive(b, c, a);
    }
  }

  lemma NewerIsTransitive(a: string, c: string, b: string)
    requires WellFormed(a) && WellFormed(b) && WellFormed(c)
    requires !OutOfOrder(a, c) && !OutOfOrder(c, b) && !OutOfOrder(a, b)
    requires NewerVersion(c, a) && NewerVersion(b, c)
    ensures NewerVersion(b, a)
  {
    NewerByKey(a, c);
    NewerByKey(c, b);
    NewerByKey(a, b);
    PrecedenceIsTotalOrder(Key(a), Key(c), Key(b));
  }

  lemma DetourBetween(a: string, b: string) returns (c: string)
    requires OutOfOrder(a, b)
    ensures WellFormed(c) && !OutOfOrder(a, c) && !OutOfOrder(c, b) && !StepsJoin(a, c, b)
  {
    SameNumbersCompareWords(a, b);
    MisorderedDiffer(ReadingOf(a).pre, ReadingOf(b).pre);
    KeysCompare(a, b);
    SameNumbersCompareWords(b, a);
    if CompareVersion(Key(a), Key(b)) < 0 {
      c := VersionBetween(a, b);
    } else {
      c := VersionBetween(b, a);
      KeysCompare(a, c);
      KeysCompare(c, b);
    }
  }

  /** None of the words is a number to PHP. */
  ghost predicate PlainReading(r: Reading)
  {
    forall i <- r.pre :: Digits(i) || !PhpNumeric(i)
  }

  lemma {:induction false} PlainIsInOrder(a: seq<string>, b: seq<string>)
    requires forall i <- a :: Digits(i) || !PhpNumeric(i)
    ensures !MisorderedWords(a, b)
    decreases |a|
  {
    if a != [] && b != [] {
      assert a[0] in a;
      PlainIsInOrder(a[1..], b[1..]);
    }
  }

  /** Every number fits PHP's integers. */
  ghost predicate InRange(v: Version)
  {
    v.major <= MAX_INT && v.minor <= MAX_INT && v.patch <= MAX_INT
    && forall i <- v.pre :: i.Number? ==> i.n <= MAX_INT
  }

  /** In range, two versions are compared by section 11 exactly unless they are out of order, and then
      compare returns 0 exactly when parseTag gives equal results. */
  lemma CompareInRange(a: string, b: string, r: Reading, s: Reading)
    requires Reads(a, r) && Reads(b, s) && InRange(Denotation(r)) && InRange(Denotation(s))
    ensures Compare(a, b) == Some(CompareVersion(Denotation(r), Denotation(s))) <==> !Misordered(r, s)
    ensures !Misordered(r, s) ==> (Compare(a, b) == Some(0) <==> ParseTag(a) == ParseTag(b))
  {
    CompareMeetsPrecedence(a, b, r, s);
    InRangeIsUncut(Denotation(r));
    InRangeIsUncut(Denotation(s));
    PrecedenceIsTotalOrder(Denotation(r), Denotation(s), Denotation(s));
    SameParseSameDenotation(a, b, r, s);
  }

  lemma SameParseSameDenotation(a: string, b: string, r: Reading, s: Reading)
    requires Reads(a, r) && Reads(b, s)
    ensures Denotation(r) == Denotation(s) <==> ParseTag(a) == ParseTag(b)
  {
    ReadsParses(a, r);
    ReadsParses(b, s);
    if Denotation(r) == Denotation(s) {
      DenotationDeterminesText(r, s);
    }
    if Text(r) == Text(s) {
      TextParts(r);
      TextParts(s);
    }
  }

  lemma InRangeIsUncut(v: Version)
    requires InRange(v)
    ensures CutVersion(v) == v
  {
    forall i | 0 <= i < |v.pre| ensures CutIdents(v.pre)[i] == v.pre[i] {
      assert v.pre[i] in v.pre;
    }
  }

  lemma {:induction false} ValueInjective(s: string, t: string)
    requires NumericText(s) && NumericText(t) && Value(s) == Value(t)
    ensures s == t
    decreases |s|
  {
    var sInit, tInit := s[..|s| - 1], t[..|t| - 1];
    assert Digit(s[|s| - 1]) && Digit(t[|t| - 1]);
    assert Value(sInit) == Value(tInit) && s[|s| - 1] == t[|t| - 1];
    assert s == sInit + [s[|s| - 1]] && t == tInit + [t[|t| - 1]];
    if sInit != "" && tInit != "" {
      ValueInjective(sInit, tInit);
    } else if sInit != "" {
      PositiveValue(sInit);
    } else if tInit != "" {
      PositiveValue(tInit);
    }
  }

  lemma {:induction false} PositiveValue(s: string)
    requires Digits(s) && s[0] != '0'
    ensures Value(s) > 0
  {
    assert Digit(s[0]);
    if |s| > 1 {
      PositiveValue(s[..|s| - 1]);
    }
    assert Digit(s[|s| - 1]);
  }

  lemma DenotationDeterminesText(r: Reading, s: Reading)
    requires Admissible(r) && Admissible(s) && Denotation(r) == Denotation(s)
    ensures Text(r) == Text(s)
  {
    ValueInjective(r.major, s.major);
    ValueInjective(r.minor, s.minor);
    ValueInjective(r.patch, s.patch);
    assert |IdentsOf(r.pre)| == |IdentsOf(s.pre)|;
    forall i | 0 <= i < |r.pre| ensures r.pre[i] == s.pre[i] {
      assert IdentsOf(r.pre)[i] == IdentsOf(s.pre)[i];
      assert Identifier(r.pre[i]) && Identifier(s.pre[i]);
      if Digits(r.pre[i]) {
        assert Digits(s.pre[i]);
        ValueInjective(r.pre[i], s.pre[i]);
      }
    }
    assert r.pre == s.pre;
  }

  // ---------------------------------------------------------------- what falls outside

  function PreRelease(word: string): Reading
  {
    Reading("1", "0", "0", [word], [])
  }

  lemma PreReleaseParses(word: string)
    requires WordText(word)
    ensures Admissible(PreRelease(word)) && ParseTag(Text(PreRelease(word))) == Some(Text(PreRelease(word)))
  {
    ParseTagInvertsPrinting(PreRelease(word));
  }

  lemma PreReleasesCompare(a: string, b: string)
    requires WordText(a) && WordText(b) && a != b
    ensures Compare(Text(PreRelease(a)), Text(PreRelease(b))) == Some(CompareStrings(a, b))
  {
    PreReleaseParses(a);
    PreReleaseParses(b);
    TextParts(PreRelease(a));
    TextParts(PreRelease(b));
    NumbersMeet(PreRelease(a), PreRelease(b));
    SingleWords(a, b);
  }

  lemma SingleWords(a: string, b: string)
    requires WordText(a) && WordText(b) && a != b
    ensures CompareIdentifiers([a], [b]) == CompareStrings(a, b)
  {
    assert !Digits(a) && !Digits(b);
  }

  lemma NegativeDigit(d: char)
    requires Digit(d)
    ensures PhpNumeric(['-', d]) && PhpValue(['-', d]) == -((d as int - '0' as int) as real)
    ensures WordText(['-', d])
  {
    var s := ['-', d];
    assert s[1..] == [d] && [d][1..] == "";
    assert ExponentMark("") == 0 && ExponentMark([d]) == 1 && ExponentMark(s) == 2;
    assert s[..2] == s;
    assert [d][..0] == "";
    assert Value([d]) == d as int - '0' as int;
    assert PowerOfTen(0) == 1.0;
    assert s[0] in s && Letter(s[0]);
  }

  lemma OneWithLetter()
    ensures WordText("-1a") && !PhpNumeric("-1a")
    ensures CompareText("-1a", "-1") == 1 && CompareText("-2", "-1a") == 1
  {
    var w := "-1a";
    assert Letter(w[2]) && w[2] in w;
    assert w[1..] == "1a" && "1a"[1..] == "a" && "a"[1..] == "" && "-1"[1..] == "1" && "1"[1..] == "" && "-2"[1..] == "2";
    assert ExponentMark("") == 0 && ExponentMark("a") == 1 && ExponentMark("1a") == 2 && ExponentMark(w) == 3;
    assert w[..3] == w && "1a"[1] in "1a" && !Digit("1a"[1]);
    assert CompareText("a", "") == 1 && CompareText("1a", "1") == 1;
  }

  /** Words with an exponent are numbers too: 1e2 is a hundred. */
  lemma ExponentExample(word: string)
    requires word == "1e2"
    ensures PhpNumeric(word) && PhpValue(word) == 100.0
  {
    assert word[1..] == "e2" && ExponentMark("e2") == 0 && ExponentMark(word) == 1;
    assert word[..1] == "1" && word[2..] == "2" && "1"[..0] == "" && "2"[..0] == "";
    assert Value("1") == 1 && Value("2") == 2;
    assert PowerOfTen(1) == 10.0 && PowerOfTen(2) == 100.0;
  }

  /** Where words look like numbers to PHP, compare is not even transitive: 1.0.0--1a is newer than
      1.0.0--1, 1.0.0--2 newer than that, and 1.0.0--1 newer than 1.0.0--2. */
  lemma NumericWordsMakeACycle()
    ensures var one, word, two := Text(PreRelease("-1")), Text(PreRelease("-1a")), Text(PreRelease("-2"));
            Compare(word, one) == Some(1) && Compare(two, word) == Some(1) && Compare(one, two) == Some(1)
  {
    NegativeDigit('1');
    NegativeDigit('2');
    OneWithLetter();
    var one, word, two := "-1", "-1a", "-2";
    assert one == ['-', '1'] && two == ['-', '2'];
    CyclicWords(one, word, two);
  }

  lemma CyclicWords(one: string, word: string, two: string)
    requires WordText(one) && WordText(word) && WordText(two) && word != one && two != word && one != two
    requires CompareStrings(word, one) == 1 && CompareStrings(two, word) == 1 && CompareStrings(one, two) == 1
    ensures Compare(Text(PreRelease(word)), Text(PreRelease(one))) == Some(1)
    ensures Compare(Text(PreRelease(two)), Text(PreRelease(word))) == Some(1)
    ensures Compare(Text(PreRelease(one)), Text(PreRelease(two))) == Some(1)
  {
    PreReleasesCompare(word, one);
    PreReleasesCompare(two, word);
    PreReleasesCompare(one, two);
  }

  lemma CycleExists() returns (one: string, word: string, two: string)
    ensures Compare(word, one) == Some(1) && Compare(two, word) == Some(1) && Compare(one, two) == Some(1)
  {
    NumericWordsMakeACycle();
    one, word, two := Text(PreRelease("-1")), Text(PreRelease("-1a")), Text(PreRelease("-2"));
  }

  // ---------------------------------------------------------------- exactly when compare is section 11

  /** Every number is below the largest PHP integer, so that no other number is cut down to it. */
  ghost predicate Below(v: Version)
  {
    v.major < MAX_INT && v.minor < MAX_INT && v.patch < MAX_INT
    && forall i | 0 <= i < |v.pre| :: v.pre[i].Number? ==> v.pre[i].n < MAX_INT
  }

  lemma {:induction false} FieldsBelow(a: seq<Ident>, b: seq<Ident>)
    requires forall i | 0 <= i < |a| :: a[i].Number? ==> a[i].n < MAX_INT
    ensures CompareFields(CutIdents(a), CutIdents(b)) == CompareFields(a, b)
    decreases |a|
  {
    if a != [] && b != [] {
      assert CutIdents(a)[1..] == CutIdents(a[1..]) && CutIdents(b)[1..] == CutIdents(b[1..]);
      FieldsBelow(a[1..], b[1..]);
    }
  }

  lemma CutsCompareAlike(v: Version, w: Version)
    requires Below(v)
    ensures CompareVersion(CutVersion(v), CutVersion(w)) == CompareVersion(v, w)
  {
    FieldsBelow(v.pre, w.pre);
  }

  /** Another reading of which compare says that it is the same version. */
  ghost predicate Ties(r: Reading, s: Reading)
    requires Admissible(r) && Admissible(s)
  {
    Denotation(s) != Denotation(r) && CutVersion(Denotation(s)) == CutVersion(Denotation(r))
  }

  lemma TimesTen(n: string)
    requires NumericText(n) && Value(n) >= MAX_INT
    ensures NumericText(n + "0") && Value(n + "0") > Value(n)
  {
    assert (n + "0")[..|n|] == n;
    assert Value("0") == 0;
  }

  lemma BigNumberTies(r: Reading) returns (s: Reading)
    requires Admissible(r) && !Below(Denotation(r))
    ensures Admissible(s) && Ties(r, s)
  {
    if Value(r.major) >= MAX_INT {
      TimesTen(r.major);
      s := r.(major := r.major + "0");
    } else if Value(r.minor) >= MAX_INT {
      TimesTen(r.minor);
      s := r.(minor := r.minor + "0");
    } else if Value(r.patch) >= MAX_INT {
      TimesTen(r.patch);
      s := r.(patch := r.patch + "0");
    } else {
      s := BigFieldTies(r);
    }
  }

  lemma BigFieldTies(r: Reading) returns (s: Reading)
    requires Admissible(r)
    requires exists i | 0 <= i < |r.pre| :: Digits(r.pre[i]) && Value(r.pre[i]) >= MAX_INT
    ensures Admissible(s) && Ties(r, s)
  {
    var i :| 0 <= i < |r.pre| && Digits(r.pre[i]) && Value(r.pre[i]) >= MAX_INT;
    assert Identifier(r.pre[i]);
    TimesTen(r.pre[i]);
    var big := r.pre[i] + "0";
    s := r.(pre := r.pre[i := big]);
    assert IdentsOf(s.pre)[i] != IdentsOf(r.pre)[i];
    assert CutIdents(IdentsOf(s.pre)) == CutIdents(IdentsOf(r.pre));
  }

  /** Compare is section 11 between a and every version that is in order with it. */
  ghost predicate MeetsInOrder(a: string, r: Reading)
    requires Reads(a, r)
  {
    forall b, s | Reads(b, s) && !Misordered(r, s) :: Compare(a, b) == Some(CompareVersion(Denotation(r), Denotation(s)))
  }

  ghost predicate MeetsEverywhere(a: string, r: Reading)
    requires Reads(a, r)
  {
    forall b, s | Reads(b, s) :: Compare(a, b) == Some(CompareVersion(Denotation(r), Denotation(s)))
  }

  /** A word that PHP takes for a number, with one more zero in front of its digits. */
  function Padded(word: string): string
    requires word != ""
  {
    if word[0] == '-' then "-0" + word[1..] else "0" + word
  }

  lemma {:induction false} ZeroInFront(digits: string)
    requires AllDigits(digits)
    ensures AllDigits("0" + digits) && Value("0" + digits) == Value(digits)
  {
    if digits == "" {
      assert "0" + digits == "0" && "0"[..0] == "";
    } else {
      var init := digits[..|digits| - 1];
      ZeroInFront(init);
      assert ("0" + digits)[..|digits|] == "0" + init;
    }
  }

  lemma {:induction false} MarkMoves(c: char, s: string)
    requires c != 'e' && c != 'E'
    ensures ExponentMark([c] + s) == 1 + ExponentMark(s)
  {
    assert ([c] + s)[1..] == s;
  }

  lemma PaddedMantissa(s: string)
    requires SignedDigits(s)
    ensures SignedDigits(Padded(s)) && SignedValue(Padded(s)) == SignedValue(s)
  {
    if s[0] == '-' {
      ZeroInFront(s[1..]);
      assert Padded(s)[1..] == "0" + s[1..];
    } else {
      ZeroInFront(s);
    }
  }

  lemma PaddedMark(word: string)
    requires PhpNumeric(word)
    ensures ExponentMark(Padded(word)) == ExponentMark(word) + 1 && ExponentMark(word) > 0
    ensures Padded(word)[..ExponentMark(word) + 1] == Padded(word[..ExponentMark(word)])
    ensures Padded(word)[ExponentMark(word) + 1..] == word[ExponentMark(word)..]
  {
    if word[0] == '-' {
      MarkMoves('0', word[1..]);
      MarkMoves('-', "0" + word[1..]);
      assert Padded(word) == ['-'] + ("0" + word[1..]);
    } else {
      MarkMoves('0', word);
    }
    PaddedSplit(word, ExponentMark(word));
  }

  lemma PaddedSplit(word: string, k: nat)
    requires 0 < k <= |word|
    ensures Padded(word)[..k + 1] == Padded(word[..k]) && Padded(word)[k + 1..] == word[k..]
  {
  }

  lemma PaddedIsNumeric(word: string)
    requires PhpNumeric(word)
    ensures PhpNumeric(Padded(word))
    ensures Mantissa(Padded(word)) == Mantissa(word) && Exponent(Padded(word)) == Exponent(word)
  {
    var k := ExponentMark(word);
    PaddedMark(word);
    PaddedMantissa(word[..k]);
    if k < |word| {
      assert Padded(word)[k + 2..] == word[k + 1..];
    }
  }

  lemma PaddedIsWord(word: string)
    requires WordText(word)
    ensures WordText(Padded(word)) && Padded(word) != word
  {
    var i :| 0 <= i < |word| && Letter(word[i]);
    var p := Padded(word);
    assert |p| == |word| + 1;
    assert p[0] == '-' || p[i + 1] == word[i];
    assert Letter(p[if p[0] == '-' then 0 else i + 1]);
    forall c <- p ensures Digit(c) || Letter(c) {
      assert c == '0' || c == '-' || c in word;
    }
  }

  lemma {:induction false} SkipSame(same: seq<string>, a: seq<string>, b: seq<string>)
    ensures CompareIdentifiers(same + a, same + b) == CompareIdentifiers(a, b)
  {
    if same == [] {
      assert same + a == a && same + b == b;
    } else {
      assert (same + a)[1..] == same[1..] + a && (same + b)[1..] == same[1..] + b;
      SkipSame(same[1..], a, b);
    }
  }

  lemma EqualNumbersTie(x: string, y: string, more: seq<string>)
    requires PhpNumeric(x) && PhpNumeric(y) && Mantissa(x) == Mantissa(y) && Exponent(x) == Exponent(y)
    requires !Digits(x) && !Digits(y)
    ensures x != y ==> CompareIdentifiers([x] + more, [y] + more) == 0
  {
    EqualValues(x, y);
    if x != y {
      FirstWordsDecide(x, y, more);
    }
  }

  lemma EqualValues(x: string, y: string)
    requires PhpNumeric(x) && PhpNumeric(y) && Mantissa(x) == Mantissa(y) && Exponent(x) == Exponent(y)
    ensures CompareStrings(x, y) == 0
  {
    assert PhpValue(x) == PhpValue(y);
  }

  lemma FirstWordsDecide(x: string, y: string, more: seq<string>)
    requires !Digits(x) && !Digits(y) && x != y
    ensures CompareIdentifiers([x] + more, [y] + more) == CompareStrings(x, y)
  {
    assert ([x] + more)[0] == x && ([y] + more)[0] == y;
  }

  lemma SplitAt(pre: seq<string>, i: nat, y: string)
    requires i < |pre|
    ensures pre[i := y] == pre[..i] + ([y] + pre[i + 1..]) && pre[i := pre[i]] == pre
  {
  }

  lemma ReplacedTies(pre: seq<string>, i: nat, y: string)
    requires i < |pre| && CompareIdentifiers([pre[i]] + pre[i + 1..], [y] + pre[i + 1..]) == 0
    ensures CompareIdentifiers(pre, pre[i := y]) == 0
  {
    SplitAt(pre, i, pre[i]);
    SplitAt(pre, i, y);
    SkipSame(pre[..i], [pre[i]] + pre[i + 1..], [y] + pre[i + 1..]);
  }

  lemma PaddedTies(pre: seq<string>, i: nat)
    requires i < |pre| && WordText(pre[i]) && PhpNumeric(pre[i]) && !Digits(pre[i])
    ensures CompareIdentifiers(pre, pre[i := Padded(pre[i])]) == 0
  {
    PaddedIsWord(pre[i]);
    PaddedIsNumeric(pre[i]);
    WordsAreNotDigits(Padded(pre[i]));
    EqualNumbersTie(pre[i], Padded(pre[i]), pre[i + 1..]);
    ReplacedTies(pre, i, Padded(pre[i]));
  }

  lemma WordsAreNotDigits(word: string)
    requires WordText(word)
    ensures !Digits(word)
  {
  }

  lemma SameNumbersCompare(a: string, b: string, r: Reading, s: Reading)
    requires Reads(a, r) && Reads(b, s) && s == r.(pre := s.pre) && r.pre != [] && s.pre != []
    ensures Compare(a, b) == Some(CompareIdentifiers(r.pre, s.pre))
  {
    ReadsParses(a, r);
    ReadsParses(b, s);
    TextParts(r);
    TextParts(s);
    NumbersMeet(r, s);
  }

  lemma NumericWordTies(a: string, r: Reading) returns (b: string, s: Reading)
    requires Reads(a, r) && !PlainReading(r)
    ensures Reads(b, s) && Compare(a, b) == Some(0) && Denotation(s) != Denotation(r)
  {
    var i :| 0 <= i < |r.pre| && !Digits(r.pre[i]) && PhpNumeric(r.pre[i]);
    assert Identifier(r.pre[i]) && WordText(r.pre[i]);
    var p := Padded(r.pre[i]);
    PaddedIsWord(r.pre[i]);
    s := r.(pre := r.pre[i := p]);
    b := "v" + FullText(s);
    TagIsStripped(FullText(s));
    SameNumbersCompare(a, b, r, s);
    PaddedTies(r.pre, i);
    WordsAreNotDigits(p);
    ReplacedDiffers(r.pre, i, p);
  }

  lemma ReplacedDiffers(pre: seq<string>, i: nat, p: string)
    requires i < |pre| && !Digits(p) && !Digits(pre[i]) && p != pre[i]
    ensures IdentsOf(pre[i := p]) != IdentsOf(pre)
  {
    assert IdentsOf(pre[i := p])[i] != IdentsOf(pre)[i];
  }

  lemma BigNumberTiesText(a: string, r: Reading) returns (b: string, s: Reading)
    requires Reads(a, r) && !Below(Denotation(r))
    ensures Reads(b, s) && !Misordered(r, s) && Compare(a, b) == Some(0) && Denotation(s) != Denotation(r)
  {
    s := BigNumberTies(r);
    b := "v" + FullText(s);
    TagIsStripped(FullText(s));
    SameFieldsAreInOrder(r.pre, s.pre);
    CompareMeetsPrecedence(a, b, r, s);
    PrecedenceIsTotalOrder(CutVersion(Denotation(r)), CutVersion(Denotation(r)), CutVersion(Denotation(r)));
  }

  lemma MeetsStandard(a: string, b: string, r: Reading, s: Reading)
    requires Reads(a, r) && Reads(b, s) && !Misordered(r, s) && Below(Denotation(r))
    ensures Compare(a, b) == Some(CompareVersion(Denotation(r), Denotation(s)))
  {
    CompareMeetsPrecedence(a, b, r, s);
    CutsCompareAlike(Denotation(r), Denotation(s));
  }

  /** Apart from versions that are out of order with it, a is compared by section 11 with all others
      exactly if every number of a is below 2^63 - 1. */
  lemma MeetsInOrderExactly(a: string, r: Reading)
    requires Reads(a, r)
    ensures MeetsInOrder(a, r) <==> Below(Denotation(r))
  {
    if Below(Denotation(r)) {
      forall b, s | Reads(b, s) && !Misordered(r, s)
        ensures Compare(a, b) == Some(CompareVersion(Denotation(r), Denotation(s)))
      {
        MeetsStandard(a, b, r, s);
      }
    } else {
      var b, s := BigNumberTiesText(a, r);
      PrecedenceIsTotalOrder(Denotation(r), Denotation(s), Denotation(r));
    }
  }

  /** Against all well-formed versions, compare is section 11 for a exactly if moreover no word of a is
      a number to PHP. */
  lemma MeetsEverywhereExactly(a: string, r: Reading)
    requires Reads(a, r)
    ensures MeetsEverywhere(a, r) <==> Below(Denotation(r)) && PlainReading(r)
  {
    MeetsInOrderExactly(a, r);
    if PlainReading(r) {
      forall b, s | Reads(b, s) ensures !Misordered(r, s) {
        PlainIsInOrder(r.pre, s.pre);
      }
    } else {
      var b, s := NumericWordTies(a, r);
      PrecedenceIsTotalOrder(Denotation(r), Denotation(s), Denotation(r));
    }
  }

  /** And under the same condition, and no other, it returns 0 exactly for what parseTag takes for the
      same version. */
  lemma TiesExactly(a: string, r: Reading)
    requires Reads(a, r)
    ensures (forall b, s | Reads(b, s) :: Compare(a, b) == Some(0) <==> ParseTag(b) == ParseTag(a))
            <==> Below(Denotation(r)) && PlainReading(r)
  {
    if Below(Denotation(r)) && PlainReading(r) {
      MeetsEverywhereExactly(a, r);
      forall b, s | Reads(b, s) ensures Compare(a, b) == Some(0) <==> ParseTag(b) == ParseTag(a) {
        PrecedenceIsTotalOrder(Denotation(r), Denotation(s), Denotation(r));
        SameParseSameDenotation(a, b, r, s);
      }
    } else {
      var b, s := TieExists(a, r);
      SameParseSameDenotation(a, b, r, s);
    }
  }

  lemma TieExists(a: string, r: Reading) returns (b: string, s: Reading)
    requires Reads(a, r) && !(Below(Denotation(r)) && PlainReading(r))
    ensures Reads(b, s) && Compare(a, b) == Some(0) && Denotation(s) != Denotation(r)
  {
    if Below(Denotation(r)) {
      b, s := NumericWordTies(a, r);
    } else {
      b, s := BigNumberTiesText(a, r);
    }
  }

  /** Versions that differ only in majors too big for an integer compare as equal. */
  lemma BigMajorsTie(r: Reading, s: Reading)
    requires Admissible(r) && Admissible(s)
    requires r.build == s.build == [] && r == s.(major := r.major)
    requires Value(r.major) >= MAX_INT && Value(s.major) >= MAX_INT
    ensures Compare(Text(r), Text(s)) == Some(0)
    ensures ParseTag(Text(r)) == ParseTag(Text(s)) <==> r == s
  {
    StripCanonical(r);
    StripCanonical(s);
    assert Reads(Text(r), r) && Reads(Text(s), s);
    SameIsInOrder(r.pre);
    CompareMeetsPrecedence(Text(r), Text(s), r, s);
    PrecedenceIsTotalOrder(CutVersion(Denotation(r)), CutVersion(Denotation(r)), CutVersion(Denotation(r)));
    ReadsParses(Text(r), r);
    ReadsParses(Text(s), s);
    TextParts(r);
    TextParts(s);
  }

  function Nines(n: nat): string
  {
    seq(n, _ => '9')
  }

  function TenTo(n: nat): nat
  {
    if n == 0 then 1 else 10 * TenTo(n - 1)
  }

  lemma Thousandfold(n: nat)
    ensures TenTo(n + 3) == 1000 * TenTo(n)
  {
    assert TenTo(n + 3) == 10 * TenTo(n + 2) && TenTo(n + 2) == 10 * TenTo(n + 1);
  }

  lemma {:induction false} NinesValue(n: nat)
    ensures Value(Nines(n)) == TenTo(n) - 1
  {
    if n > 0 {
      NinesValue(n - 1);
      assert Nines(n)[..n - 1] == Nines(n - 1) && Nines(n)[n - 1] == '9';
    }
  }

  /** Such versions exist: nineteen nines and twenty nines. */
  lemma DifferentVersionsTie()
    ensures var r, s := Reading(Nines(19), "0", "0", [], []), Reading(Nines(20), "0", "0", [], []);
            Compare(Text(r), Text(s)) == Some(0) && ParseTag(Text(r)) != ParseTag(Text(s))
  {
    NinesValue(19);
    NinesValue(20);
    Thousandfold(0);
    Thousandfold(3);
    Thousandfold(6);
    Thousandfold(9);
    Thousandfold(12);
    Thousandfold(15);
    assert TenTo(18) == 1_000_000_000_000_000_000;
    assert TenTo(19) == 10 * TenTo(18) && TenTo(20) == 10 * TenTo(19);
    assert |Nines(19)| != |Nines(20)|;
    BigMajorsTie(Reading(Nines(19), "0", "0", [], []), Reading(Nines(20), "0", "0", [], []));
  }
}
