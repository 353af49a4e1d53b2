// Serving a chunk of ciphertext: the Range header (ChunkResponse::range), the loop that streams the
// chosen bytes (ChunkResponse::make) and the choice among stored copies (ChunkReader::read).
module ByteRange {
  import opened Options
  import opened Decimals
  import opened Strings

  type Byte = x: int | 0 <= x < 256

  const MAX_RANGE_HEADER_BYTES: nat := 128

  const READ_SIZE: nat := 1_048_576

  /** The integer cast of a string of digits. */
  function Cast(digits: string): int
    requires AllDigits(digits)
  {
    Min(Value(digits), MAX_INT)
  }

  function Min(a: int, b: int): int
  {
    if a <= b then a else b
  }

  function Max(a: int, b: int): int
  {
    if a >= b then a else b
  }

  // ---------------------------------------------------------------- the header

  const PREFIX: string := "bytes="

  /** The two captures of the pattern /^bytes=(\d*)-(\d*)$/D. */
  function Captures(header: string): Option<(string, string)>
  {
    if |header| < |PREFIX| || header[..|PREFIX|] != PREFIX then None
    else CapturesOf(header[|PREFIX|..])
  }

  function CapturesOf(spec: string): Option<(string, string)>
  {
    match SplitFirst(spec, '-')
    case Whole => None
    case Split(first, last) => if AllDigits(first) && AllDigits(last) then Some((first, last)) else None
  }

  /** A match of the pattern, with its captures. */
  predicate Spells(header: string, first: string, last: string)
  {
    AllDigits(first) && AllDigits(last) && header == PREFIX + first + "-" + last
  }

  lemma CapturesExactly(header: string, first: string, last: string)
    ensures Captures(header) == Some((first, last)) <==> Spells(header, first, last)
  {
    if Spells(header, first, last) {
      assert header[..|PREFIX|] == PREFIX && header[|PREFIX|..] == first + ['-'] + last;
      SplitFirstSeparated(first, last, '-');
    }
    if Captures(header) == Some((first, last)) {
      assert header == header[..|PREFIX|] + header[|PREFIX|..];
      assert header[|PREFIX|..] == first + ['-'] + last;
    }
  }

  datatype Selection = Everything | Refused | Part(start: int, end: int)

  /** The part of range() after the pattern has matched; an absent position is an empty capture. */
  function Select(first: string, last: string, bytes: int): Selection
    requires AllDigits(first) && AllDigits(last)
  {
    if first == "" then
      if last == "" || Cast(last) < 1 then Refused else Part(Max(0, bytes - Cast(last)), bytes - 1)
    else if Cast(first) >= bytes then Refused
    else
      var end := Min(if last == "" then bytes - 1 else Cast(last), bytes - 1);
      if end < Cast(first) then Refused else Part(Cast(first), end)
  }

  function RangeOf(header: string, bytes: int): Selection
  {
    if |header| > MAX_RANGE_HEADER_BYTES then Refused
    else match Captures(header)
      case None => Refused
      case Some((first, last)) =>
        CapturesExactly(header, first, last);
        Select(first, last, bytes)
  }

  /** The If-Range header of a request, with the date it spells if it is one, and what it is compared
      with. */
  datatype Validator = Validator(ifRange: Option<string>, date: Option<int>, etag: string, updated: int)
  {
    /** ifRangeMatches. */
    predicate Holds()
    {
      match ifRange
      case None => true
      case Some(value) =>
        if value == "" then true
        else if |value| > MAX_RANGE_HEADER_BYTES then false
        else if value[0] == '"' then value == etag
        else date.Some? && updated <= date.value
    }
  }

  function Range(header: Option<string>, validator: Validator, bytes: int): Selection
  {
    if header.None? || header.value == "" || !validator.Holds() then Everything else RangeOf(header.value, bytes)
  }

  /** The whole chunk is meant exactly without a Range header, or when an If-Range header does not hold:
      one that is too long, a quoted tag that is not the chunk's, or anything else that is no date or a
      date before the chunk was last changed. */
  lemma EverythingExactly(header: Option<string>, v: Validator, bytes: int)
    ensures Range(header, v, bytes) == Everything <==>
              header == None || header == Some("")
              || (v.ifRange.Some? && v.ifRange.value != ""
                  && (|v.ifRange.value| > 128
                      || (v.ifRange.value[0] == '"' && v.ifRange.value != v.etag)
                      || (v.ifRange.value[0] != '"' && (v.date == None || v.date.value < v.updated))))
  {
  }

  // ---------------------------------------------------------------- what RFC 9110 selects

  /** Section 14.1.2 of RFC 9110: an int-range, its last position optional, or a suffix-range; positions
      and lengths are numbers of any size. */
  datatype Specifier = IntRange(first: nat, last: Option<nat>) | SuffixRange(length: nat)

  ghost predicate Selects(spec: Specifier, bytes: int, position: int)
  {
    0 <= position < bytes
    && match spec
       case IntRange(first, last) => first <= position && (last.Some? ==> position <= last.value)
       case SuffixRange(length) => bytes - length <= position
  }

  /** The positions are exactly those of the range, and there is at least one. */
  ghost predicate Exactly(spec: Specifier, bytes: int, start: int, end: int)
  {
    start <= end && forall p :: Selects(spec, bytes, p) <==> start <= p <= end
  }

  ghost function SpecifierOf(first: string, last: string): Specifier
    requires AllDigits(first) && AllDigits(last)
  {
    if first == "" then SuffixRange(Value(last))
    else IntRange(Value(first), if last == "" then None else Some(Value(last)))
  }

  /** The single range a header asks for, if it has that form. */
  ghost predicate Asks(header: string, spec: Specifier)
  {
    exists first, last :: Spells(header, first, last) && (first != "" || last != "") && spec == SpecifierOf(first, last)
  }

  /** Saturating casts and comparisons agree with exact arithmetic. */
  lemma SelectExactly(first: string, last: string, bytes: int)
    requires AllDigits(first) && AllDigits(last) && 1 <= bytes <= MAX_INT && (first != "" || last != "")
    ensures var r, spec := Select(first, last, bytes), SpecifierOf(first, last);
            && !r.Everything?
            && (r.Part? ==> Exactly(spec, bytes, r.start, r.end) && 0 <= r.start <= r.end < bytes)
            && (r.Refused? ==> forall p :: !Selects(spec, bytes, p))
  {
  }

  /** For every header and every chunk of at least one byte, the server answers with the range that
      section 14.2 of RFC 9110 assigns to the header, or refuses: because the header is too long or not
      a single byte range, or because no byte is selected. */
  lemma RangeMeetsStandard(header: string, bytes: int)
    requires 1 <= bytes <= MAX_INT
    ensures var r := RangeOf(header, bytes);
            && !r.Everything?
            && (r.Part? ==> 0 <= r.start <= r.end < bytes
                            && exists spec :: Asks(header, spec) && Exactly(spec, bytes, r.start, r.end))
            && (r.Refused? <==> |header| > MAX_RANGE_HEADER_BYTES
                                || !exists spec, p :: Asks(header, spec) && Selects(spec, bytes, p))
  {
    match Captures(header) {
      case None =>
        forall spec | Asks(header, spec) ensures false {
          var first, last :| Spells(header, first, last);
          CapturesExactly(header, first, last);
        }
      case Some((first, last)) =>
        CapturesExactly(header, first, last);
        AskedFor(header, first, last);
        if first != "" || last != "" {
          SelectExactly(first, last, bytes);
          var r := Select(first, last, bytes);
          if r.Part? {
            assert Selects(SpecifierOf(first, last), bytes, r.start);
          }
        }
    }
  }

  lemma AskedFor(header: string, first: string, last: string)
    requires Spells(header, first, last)
    ensures forall spec :: Asks(header, spec) <==> (first != "" || last != "") && spec == SpecifierOf(first, last)
  {
    forall f, l | Spells(header, f, l) ensures f == first && l == last {
      CapturesExactly(header, first, last);
      CapturesExactly(header, f, l);
    }
  }

  /** A range is within bounds except for a nonzero suffix of an empty chunk; uploads are at least 16
      bytes long, so chunks never are. */
  lemma EmptyChunksExactly(first: string, last: string, bytes: int)
    requires AllDigits(first) && AllDigits(last) && 0 <= bytes <= MAX_INT
    ensures var r := Select(first, last, bytes);
            r.Part? && !(0 <= r.start <= r.end < bytes) <==> bytes == 0 && first == "" && last != "" && Value(last) >= 1
  {
  }

  // ---------------------------------------------------------------- range units

  /** Section 14.1 of RFC 9110: the range unit is what stands before the equals sign, and units are
      case-insensitive. */
  function Unit(header: string): string
  {
    match SplitFirst(header, '=') case Whole => header case Split(unit, _) => unit
  }

  function Lower(s: string): string
  {
    if s == "" then "" else [if 'A' <= s[0] <= 'Z' then s[0] - 'A' + 'a' else s[0]] + Lower(s[1..])
  }

  predicate UnderstoodUnit(header: string)
  {
    Lower(Unit(header)) == "bytes"
  }

  lemma MatchedUnit(header: string)
    requires Captures(header).Some?
    ensures Unit(header) == "bytes"
  {
    var (first, last) := Captures(header).value;
    CapturesExactly(header, first, last);
    var rest := first + "-" + last;
    assert header == "bytes" + ['='] + rest;
    SplitFirstSeparated("bytes", rest, '=');
  }

  lemma LowerBytes()
    ensures Lower("bytes") == "bytes"
  {
    assert "bytes"[1..] == "ytes" && "ytes"[1..] == "tes" && "tes"[1..] == "es" && "es"[1..] == "s" && "s"[1..] == "";
  }

  /** Section 14.2 of RFC 9110 asks that a header whose unit is not understood be ignored. The server
      refuses every one. */
  lemma UnknownUnitsAreRefused(header: string, validator: Validator, bytes: int)
    requires header != "" && validator.Holds()
    ensures !UnderstoodUnit(header) ==> Range(Some(header), validator, bytes) == Refused
  {
    if Captures(header).Some? {
      MatchedUnit(header);
      LowerBytes();
    }
  }

  /** And a unit is recognised exactly in lower case. */
  lemma CapitalUnitsAreRefused(header: string, validator: Validator, bytes: int)
    requires header != "" && validator.Holds() && Unit(header) != "bytes"
    ensures Range(Some(header), validator, bytes) == Refused
  {
    if Captures(header).Some? {
      MatchedUnit(header);
    }
  }

  lemma LowerCapital()
    ensures Lower("Bytes") == "bytes"
  {
    assert "Bytes"[1..] == "ytes" && "ytes"[1..] == "tes" && "tes"[1..] == "es" && "es"[1..] == "s" && "s"[1..] == "";
  }

  lemma UnitIs(unit: string, rest: string)
    requires '=' !in unit
    ensures Unit(unit + ['='] + rest) == unit
  {
    SplitFirstSeparated(unit, rest, '=');
  }

  /** So any range is refused whose unit is written Bytes, though the standard allows that. */
  lemma CapitalUnitExample(ranges: string, validator: Validator, bytes: int)
    requires validator.Holds()
    ensures var header := "Bytes" + ['='] + ranges;
            UnderstoodUnit(header) && Range(Some(header), validator, bytes) == Refused
  {
    UnitIs("Bytes", ranges);
    LowerCapital();
    CapitalUnitsAreRefused("Bytes" + ['='] + ranges, validator, bytes);
  }

  // ---------------------------------------------------------------- streaming

  /** The loop of make(). Each read returns some bytes, at least one and at most what was asked for, or
      fails. */
  method Stream(content: seq<Byte>, start: nat, length: nat) returns (sent: seq<Byte>, failed: bool)
    requires start + length <= |content|
    ensures sent <= content[start..start + length]
    ensures !failed ==> sent == content[start..start + length]
  {
    sent, failed := [], false;
    var position, remaining := start, length;
    while remaining > 0
      invariant 0 <= remaining <= length && position == start + length - remaining
      invariant sent == content[start..position]
    {
      var fails: bool := *;
      if fails {
        failed := true;
        break;
      }
      var size :| 1 <= size <= READ_SIZE && size <= remaining;
      var part := content[position..position + size];
      position := position + size;
      remaining := remaining - |part|;
      sent := sent + part;
    }
    assert content[start..position] <= content[start..start + length];
  }

  // ---------------------------------------------------------------- stored copies

  predicate Valid(copy: Option<seq<Byte>>, bytes: nat, checksum: string, digest: seq<Byte> -> string)
  {
    copy.Some? && |copy.value| == bytes && digest(copy.value) == checksum
  }

  datatype Spooled = Spooled(content: seq<Byte>) | Unavailable | NoSpool

  /** What the reader has to return: the first valid copy, unless there is no room to spool an earlier
      one. */
  function FirstValid(copies: seq<Option<seq<Byte>>>, bytes: nat, checksum: string, digest: seq<Byte> -> string,
                      full: seq<bool>): Spooled
    requires |full| == |copies|
  {
    if copies == [] then Unavailable
    else if full[0] then NoSpool
    else if Valid(copies[0], bytes, checksum, digest) then Spooled(copies[0].value)
    else FirstValid(copies[1..], bytes, checksum, digest, full[1..])
  }

  /** At most one byte more than the expected size is copied, which is enough to notice a longer copy. */
  method Read(copies: seq<Option<seq<Byte>>>, bytes: nat, checksum: string, digest: seq<Byte> -> string, full: seq<bool>)
    returns (r: Spooled)
    requires |full| == |copies|
    ensures r == FirstValid(copies, bytes, checksum, digest, full)
  {
    for i := 0 to |copies|
      invariant FirstValid(copies, bytes, checksum, digest, full) == FirstValid(copies[i..], bytes, checksum, digest, full[i..])
    {
      assert copies[i..][1..] == copies[i + 1..] && full[i..][1..] == full[i + 1..];
      if full[i] {
        return NoSpool;
      }
      if copies[i].Some? {
        var output := if |copies[i].value| > bytes + 1 then copies[i].value[..bytes + 1] else copies[i].value;
        if |output| == bytes && digest(output) == checksum {
          return Spooled(output);
        }
      }
    }
    r := Unavailable;
  }

  /** A served chunk has the recorded size and checksum, and the reader gives up only when no copy has. */
  lemma {:induction false} ReadIsVerified(copies: seq<Option<seq<Byte>>>, bytes: nat, checksum: string,
                                          digest: seq<Byte> -> string, full: seq<bool>)
    requires |full| == |copies|
    ensures var r := FirstValid(copies, bytes, checksum, digest, full);
            && (r.Spooled? ==> Valid(Some(r.content), bytes, checksum, digest) && Some(r.content) in copies)
            && (r.Unavailable? <==> true !in full && forall copy <- copies :: !Valid(copy, bytes, checksum, digest))
  {
    if copies != [] {
      ReadIsVerified(copies[1..], bytes, checksum, digest, full[1..]);
      assert copies == [copies[0]] + copies[1..] && full == [full[0]] + full[1..];
    }
  }

  /** Every copy before the one that is served was tried, and was not valid. */
  lemma {:induction false} ReadIsFirst(copies: seq<Option<seq<Byte>>>, bytes: nat, checksum: string,
                                       digest: seq<Byte> -> string, full: seq<bool>) returns (k: nat)
    requires |full| == |copies| && !FirstValid(copies, bytes, checksum, digest, full).Unavailable?
    ensures k < |copies| && forall i | 0 <= i < k :: !full[i] && !Valid(copies[i], bytes, checksum, digest)
    ensures var r := FirstValid(copies, bytes, checksum, digest, full);
            if r.NoSpool? then full[k] else !full[k] && copies[k] == Some(r.content)
  {
    if full[0] || Valid(copies[0], bytes, checksum, digest) {
      k := 0;
    } else {
      var j := ReadIsFirst(copies[1..], bytes, checksum, digest, full[1..]);
      k := j + 1;
      forall i | 0 <= i < k ensures !full[i] && !Valid(copies[i], bytes, checksum, digest) {
        assert i > 0 ==> copies[i] == copies[1..][i - 1] && full[i] == full[1..][i - 1];
      }
    }
  }

  // ---------------------------------------------------------------- the response

  datatype Response = Response(status: nat, start: int, end: int, body: seq<Byte>)

  /** The response to a request whose stream does not fail. */
  function Answer(header: Option<string>, validator: Validator, head: bool, copy: Spooled, bytes: nat): Response
  {
    var range := Range(header, validator, bytes);
    if range.Refused? then Response(416, 0, 0, [])
    else
      match copy
      case Unavailable => Response(503, 0, 0, [])
      case NoSpool => Response(500, 0, 0, [])
      case Spooled(content) =>
        if range.Part? && 0 <= range.start <= range.end < |content| then
          Response(206, range.start, range.end, if head then [] else content[range.start..range.end + 1])
        else Response(200, 0, if bytes > 0 then bytes - 1 else 0, if head then [] else content)
  }

  /** make(): an unsatisfiable range is refused before a copy is looked for, and whatever is answered
      is the selected slice of a verified copy. */
  method Make(header: Option<string>, validator: Validator, head: bool, copies: seq<Option<seq<Byte>>>, bytes: nat, checksum: string,
              digest: seq<Byte> -> string, full: seq<bool>) returns (r: Response, failed: bool)
    requires 1 <= bytes <= MAX_INT && |full| == |copies|
    ensures var range, copy := Range(header, validator, bytes), FirstValid(copies, bytes, checksum, digest, full);
            && (r.status == 416 <==> range.Refused?)
            && (r.status == 503 <==> !range.Refused? && copy.Unavailable?)
            && (r.status == 500 <==> !range.Refused? && copy.NoSpool?)
            && (r.status == 206 <==> range.Part? && copy.Spooled?)
            && (r.status == 200 <==> range.Everything? && copy.Spooled?)
            && (r.status == 206 ==> r.start == range.start && r.end == range.end)
            && (r.status == 200 ==> r.start == 0 && r.end == bytes - 1)
            && (r.status == 200 || r.status == 206 ==>
                  && 0 <= r.start <= r.end < bytes == |copy.content|
                  && (head ==> r.body == [])
                  && (!head ==> r.body <= copy.content[r.start..r.end + 1])
                  && (!head && !failed ==> r.body == copy.content[r.start..r.end + 1]))
            && (!failed ==> r == Answer(header, validator, head, copy, bytes))
  {
    var range := Range(header, validator, bytes);
    if range.Part? {
      RangeMeetsStandard(header.value, bytes);
    }
    failed := false;
    if range.Refused? {
      return Response(416, 0, 0, []), false;
    }
    ReadIsVerified(copies, bytes, checksum, digest, full);
    var copy := Read(copies, bytes, checksum, digest, full);
    match copy {
      case Unavailable => return Response(503, 0, 0, []), false;
      case NoSpool => return Response(500, 0, 0, []), false;
      case Spooled(content) =>
        var start, end := if range.Part? then range.start else 0, if range.Part? then range.end else bytes - 1;
        var body: seq<Byte> := [];
        if !head {
          body, failed := Stream(content, start, end - start + 1);
        }
        r := Response(if range.Part? then 206 else 200, start, end, body);
        assert content[0..bytes] == content;
    }
  }

  // ---------------------------------------------------------------- covering a chunk with ranges

  function Decimal(n: nat): string
  {
    if n < 10 then [DigitOf(n)] else Decimal(n / 10) + [DigitOf(n % 10)]
  }

  function DigitOf(d: nat): char
    requires d < 10
  {
    d as char + '0'
  }

  lemma NumberSnoc(s: string, d: nat)
    requires AllDigits(s) && d < 10
    ensures AllDigits(s + [DigitOf(d)]) && Value(s + [DigitOf(d)]) == Value(s) * 10 + d
  {
    var t := s + [DigitOf(d)];
    assert t[..|t| - 1] == s;
    assert t[|t| - 1] as int - '0' as int == d;
  }

  lemma {:induction false} NumberOfDecimal(n: nat)
    ensures AllDigits(Decimal(n)) && Decimal(n) != "" && Value(Decimal(n)) == n
  {
    if n < 10 {
      NumberSnoc("", n);
      assert "" + [DigitOf(n)] == [DigitOf(n)];
    } else {
      NumberOfDecimal(n / 10);
      NumberSnoc(Decimal(n / 10), n % 10);
    }
  }

  function Power(k: nat): nat
  {
    if k == 0 then 1 else 10 * Power(k - 1)
  }

  lemma {:induction false} DecimalLength(n: nat, k: nat)
    requires k > 0 && n < Power(k)
    ensures |Decimal(n)| <= k
  {
    if n >= 10 {
      assert k > 1;
      DecimalLength(n / 10, k - 1);
    }
  }

  function Ask(first: nat, last: nat): string
  {
    PREFIX + Decimal(first) + "-" + Decimal(last)
  }

  /** A request for bytes first to last is short enough and answered with exactly these. */
  lemma AskIsGranted(first: nat, last: nat, bytes: int)
    requires first <= last < bytes <= MAX_INT
    ensures RangeOf(Ask(first, last), bytes) == Part(first, last)
  {
    var a, b := Decimal(first), Decimal(last);
    NumberOfDecimal(first);
    NumberOfDecimal(last);
    Nineteen();
    DecimalLength(first, 19);
    DecimalLength(last, 19);
    Granted(a, b, bytes);
    SpelledRange(Ask(first, last), a, b, bytes);
  }

  lemma Granted(first: string, last: string, bytes: int)
    requires AllDigits(first) && AllDigits(last) && first != "" && last != "" && Value(first) <= Value(last) < bytes <= MAX_INT
    ensures Select(first, last, bytes) == Part(Value(first), Value(last))
  {
  }

  lemma SpelledRange(header: string, first: string, last: string, bytes: int)
    requires AllDigits(first) && AllDigits(last) && header == PREFIX + first + "-" + last && |first| <= 19 && |last| <= 19
    ensures RangeOf(header, bytes) == Select(first, last, bytes)
  {
    CapturesExactly(header, first, last);
  }

  lemma Nineteen()
    ensures MAX_INT < Power(19)
  {
    assert Power(5) == 100_000;
    assert Power(10) == 10_000_000_000;
    assert Power(15) == 1_000_000_000_000_000;
  }

  /** What a client receives when it asks for bytes first to last of a chunk that some copy holds. */
  function Piece(validator: Validator, content: seq<Byte>, first: nat, last: nat): seq<Byte>
  {
    Answer(Some(Ask(first, last)), validator, false, Spooled(content), |content|).body
  }

  lemma PieceIsSlice(validator: Validator, content: seq<Byte>, first: nat, last: nat)
    requires validator.Holds() && first <= last < |content| <= MAX_INT
    ensures Piece(validator, content, first, last) == content[first..last + 1]
    ensures Answer(Some(Ask(first, last)), validator, false, Spooled(content), |content|).status == 206
  {
    AskIsGranted(first, last, |content|);
    AnswersGranted(Ask(first, last), validator, content, first, last);
  }

  lemma AnswersGranted(header: string, validator: Validator, content: seq<Byte>, first: nat, last: nat)
    requires header != "" && validator.Holds() && first <= last < |content|
    requires RangeOf(header, |content|) == Part(first, last)
    ensures Answer(Some(header), validator, false, Spooled(content), |content|) ==
              Response(206, first, last, content[first..last + 1])
  {
  }

  /** The answers to requests for consecutive ranges that end at the given positions, joined. */
  function Assembled(fetch: (nat, nat) -> seq<Byte>, from: nat, lasts: seq<nat>): seq<Byte>
    decreases lasts
  {
    if lasts == [] then [] else fetch(from, lasts[0]) + Assembled(fetch, lasts[0] + 1, lasts[1..])
  }

  ghost predicate Fetches(fetch: (nat, nat) -> seq<Byte>, content: seq<Byte>)
  {
    forall first: nat, last: nat | first <= last < |content| :: fetch(first, last) == content[first..last + 1]
  }

  lemma {:induction false} AssembledWhole(fetch: (nat, nat) -> seq<Byte>, content: seq<Byte>, from: nat, lasts: seq<nat>)
    requires Fetches(fetch, content)
    requires lasts != [] && lasts[|lasts| - 1] == |content| - 1 && from <= lasts[0]
    requires forall i, j | 0 <= i < j < |lasts| :: lasts[i] < lasts[j]
    ensures Assembled(fetch, from, lasts) == content[from..]
    decreases lasts
  {
    var next := lasts[0] + 1;
    assert next <= |content|;
    assert fetch(from, lasts[0]) == content[from..next];
    if |lasts| == 1 {
      assert lasts[1..] == [];
      assert content[from..next] + [] == content[from..];
    } else {
      AssembledWhole(fetch, content, next, lasts[1..]);
      assert content[from..next] + content[next..] == content[from..];
    }
  }

  /** Responses to ranges that cover a chunk without gaps put it together again. */
  lemma CoveringRanges(validator: Validator, content: seq<Byte>, lasts: seq<nat>)
    requires validator.Holds() && |content| <= MAX_INT
    requires lasts != [] && lasts[|lasts| - 1] == |content| - 1 && forall i, j | 0 <= i < j < |lasts| :: lasts[i] < lasts[j]
    ensures Assembled((first: nat, last: nat) => Piece(validator, content, first, last), 0, lasts) == content
  {
    var fetch := (first: nat, last: nat) => Piece(validator, content, first, last);
    forall first: nat, last: nat | first <= last < |content| ensures fetch(first, last) == content[first..last + 1] {
      PieceIsSlice(validator, content, first, last);
    }
    AssembledWhole(fetch, content, 0, lasts);
    assert content[0..] == content;
  }
}
