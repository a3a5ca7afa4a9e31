/**
 * `parse_line_with_codepoint` (src/main.rs): one line of the form
 * `U+<hex><TAB><char><TAB><code>` becomes a `WubiEntry`, or the first check
 * it fails names the error.
 */
module LineParse {
  import opened Wrappers
  import opened Utf8
  import opened Errors
  import opened Code

  const TAB: char := '\t'

  /** `WubiEntry`: a phrase with its code. */
  datatype WubiEntry = WubiEntry(phrase: string, wubiCode: WubiCode)

  /** `str::split_once` with a char separator: the text before its first occurrence and the text after. */
  function SplitOnce(s: string, sep: char): (r: Option<(string, string)>)
    ensures r.None? <==> sep !in s
    ensures r.Some? ==> s == r.value.0 + [sep] + r.value.1 && sep !in r.value.0
  {
    if s == [] then None
    else if s[0] == sep then Some(([], s[1..]))
    else
      match SplitOnce(s[1..], sep)
      case None => None
      case Some((before, after)) => Some(([s[0]] + before, after))
  }

  // ---------------------------------------------------------------------
  // u32::from_str_radix(_, 16)

  const U32_LIMIT: nat := 0x1_0000_0000

  predicate IsHexDigit(c: char)
  {
    '0' <= c <= '9' || 'a' <= c <= 'f' || 'A' <= c <= 'F'
  }

  function HexValue(c: char): (v: nat)
    requires IsHexDigit(c)
    ensures v < 16
  {
    if '0' <= c <= '9' then c as int - '0' as int
    else if 'a' <= c <= 'f' then c as int - 'a' as int + 10
    else c as int - 'A' as int + 10
  }

  /**
   * The digit loop of `from_str_radix`, left to right: a char that is not a
   * digit is `InvalidDigit`; a step whose `acc * 16 + digit` does not fit in
   * a u32 is `PosOverflow`.
   */
  function HexDigits(digits: string, acc: nat): (r: Result<nat, IntErrorKind>)
    requires acc < U32_LIMIT
    ensures r.Ok? ==> r.value < U32_LIMIT
  {
    if digits == [] then Ok(acc)
    else if !IsHexDigit(digits[0]) then Err(InvalidDigit)
    else if acc * 16 + HexValue(digits[0]) >= U32_LIMIT then Err(PosOverflow)
    else HexDigits(digits[1..], acc * 16 + HexValue(digits[0]))
  }

  /** `u32::from_str_radix(s, 16)`: empty input is an error, one leading `+` is skipped when digits follow. */
  function ParseHexU32(s: string): (r: Result<nat, IntErrorKind>)
    ensures r.Ok? ==> r.value < U32_LIMIT
  {
    if s == [] then Err(EmptyDigits)
    else if s[0] == '+' && |s| > 1 then HexDigits(s[1..], 0)
    else HexDigits(s, 0)
  }

  // ---------------------------------------------------------------------
  // The parser

  /** The checks on the three fields, in the order the source makes them. */
  function CheckFields(codepoint: string, chField: string, wubi: string): Result<WubiEntry, ParseError>
  {
    if |chField| != 1 then Err(MultipleCharacters(chField))
    else if !("U+" <= codepoint) then Err(CodepointMismatch)
    else
      match ParseHexU32(codepoint[2..])
      case Err(e) => Err(ParseInt(e))
      case Ok(v) =>
        if v != chField[0] as int then Err(CodepointMismatch)
        else if !AllCodeBytes(AsBytes(wubi)) then Err(NotValidChar)
        else if !(1 <= |AsBytes(wubi)| <= 4) then Err(Invalid)
        else
          match Parse(AsBytes(wubi))
          case Err(e) => Err(e)
          case Ok(code) => Ok(WubiEntry(chField, code))
  }

  /** The three fields of a line: split at the first tab, then split the rest at its first tab. */
  function SplitFields(line: string): Option<(string, string, string)>
  {
    match SplitOnce(line, TAB)
    case None => None
    case Some((codepoint, rest)) =>
      match SplitOnce(rest, TAB)
      case None => None
      case Some((chField, wubi)) => Some((codepoint, chField, wubi))
  }

  /** What `parse_line_with_codepoint` returns: a missing tab names the whole line, else the fields are checked. */
  function ParseLine(line: string): Result<WubiEntry, ParseError>
  {
    match SplitFields(line)
    case None => Err(NoTabFound(line))
    case Some((codepoint, chField, wubi)) => CheckFields(codepoint, chField, wubi)
  }

  /** `parse_line_with_codepoint`, with its counting loop over the code's bytes. */
  method ParseLineWithCodepoint(line: string) returns (r: Result<WubiEntry, ParseError>)
    ensures r == ParseLine(line)
  {
    var first := SplitOnce(line, TAB);
    if first.None? {
      return Err(NoTabFound(line));
    }
    var (codepoint, rest) := first.value;
    var second := SplitOnce(rest, TAB);
    if second.None? {
      return Err(NoTabFound(line));
    }
    var (chField, wubi) := second.value;
    if |chField| != 1 {
      return Err(MultipleCharacters(chField));
    }
    var ch := chField[0];
    if !("U+" <= codepoint) {
      return Err(CodepointMismatch);
    }
    var hex := ParseHexU32(codepoint[2..]);
    if hex.Err? {
      return Err(ParseInt(hex.error));
    }
    if hex.value != ch as int {
      return Err(CodepointMismatch);
    }
    var bytes := AsBytes(wubi);
    var cnt := 0;
    while cnt < |bytes|
      invariant 0 <= cnt <= |bytes|
      invariant AllCodeBytes(bytes[..cnt])
    {
      if !IsCodeByte(bytes[cnt]) {
        return Err(NotValidChar);
      }
      assert bytes[..cnt + 1] == bytes[..cnt] + [bytes[cnt]];
      cnt := cnt + 1;
    }
    assert bytes[..cnt] == bytes;
    if !(1 <= cnt <= 4) {
      return Err(Invalid);
    }
    // `wubi.try_into()?` cannot fail here: the field is 1 to 4 letters.
    var code := TryFromStr(wubi);
    if code.Err? {
      assert false;
    }
    assert chField == [ch];
    return Ok(WubiEntry([ch], code.value));
  }

  // ---------------------------------------------------------------------
  // Properties

  /** `split_once` finds the first separator: any split of s around a separator-free prefix is the one. */
  lemma {:induction false} SplitOnceFirst(before: string, sep: char, after: string)
    requires sep !in before
    ensures SplitOnce(before + [sep] + after, sep) == Some((before, after))
  {
    var s := before + [sep] + after;
    if before != [] {
      assert s[1..] == before[1..] + [sep] + after;
      SplitOnceFirst(before[1..], sep, after);
      assert [s[0]] + before[1..] == before;
    }
  }

  /** The field checks never report a missing tab. */
  lemma CheckFieldsHaveTabs(codepoint: string, chField: string, wubi: string)
    ensures !(CheckFields(codepoint, chField, wubi).Err? && CheckFields(codepoint, chField, wubi).error.NoTabFound?)
  {
    if |chField| == 1 && "U+" <= codepoint && ParseHexU32(codepoint[2..]).Ok? {
      var bytes := AsBytes(wubi);
      if AllCodeBytes(bytes) && 1 <= |bytes| <= 4 {
        ParseOutcomes(bytes);
      }
    }
  }

  /** A line splits into three fields exactly when it holds at least two tabs. */
  lemma SplitFieldsIff(line: string)
    ensures SplitFields(line).None? <==> multiset(line)[TAB] < 2
  {
    match SplitOnce(line, TAB)
    case None =>
      assert multiset(line)[TAB] == 0;
    case Some((codepoint, rest)) =>
      assert line == codepoint + [TAB] + rest;
      assert multiset(line)[TAB] == multiset(codepoint)[TAB] + 1 + multiset(rest)[TAB];
      assert multiset(codepoint)[TAB] == 0;
      match SplitOnce(rest, TAB)
      case None =>
        assert multiset(rest)[TAB] == 0;
      case Some((chField, wubi)) =>
        assert rest == chField + [TAB] + wubi;
        assert multiset(rest)[TAB] >= 1;
  }

  /** A line is refused with `NoTabFound(line)` exactly when it holds fewer than two tabs. */
  lemma NoTabFoundIff(line: string)
    ensures ParseLine(line).Err? && ParseLine(line).error.NoTabFound? <==> multiset(line)[TAB] < 2
    ensures ParseLine(line).Err? && ParseLine(line).error.NoTabFound? ==> ParseLine(line).error.line == line
  {
    SplitFieldsIff(line);
    if SplitFields(line).Some? {
      var (codepoint, chField, wubi) := SplitFields(line).value;
      CheckFieldsHaveTabs(codepoint, chField, wubi);
    }
  }

  /**
   * The fields are the text before the first tab, the text between the first
   * two tabs, and everything after the second tab, further tabs included.
   */
  lemma LineFields(codepoint: string, chField: string, wubi: string)
    requires TAB !in codepoint && TAB !in chField
    ensures ParseLine(codepoint + [TAB] + chField + [TAB] + wubi) == CheckFields(codepoint, chField, wubi)
  {
    var rest := chField + [TAB] + wubi;
    assert codepoint + [TAB] + chField + [TAB] + wubi == codepoint + [TAB] + rest;
    SplitOnceFirst(codepoint, TAB, rest);
    SplitOnceFirst(chField, TAB, wubi);
  }

  /** The char field is checked first: anything but exactly one char is `MultipleCharacters(field)`. */
  lemma CharFieldChecked(codepoint: string, chField: string, wubi: string)
    ensures CheckFields(codepoint, chField, wubi) == Err(MultipleCharacters(chField)) <==> |chField| != 1
  {
  }

  /**
   * Then the codepoint: no `U+` prefix is `CodepointMismatch`; a hex error is
   * `ParseInt`, reachable only behind the prefix; a value other than the
   * char's scalar value is `CodepointMismatch`.
   */
  lemma CodepointChecked(codepoint: string, ch: char, wubi: string)
    ensures !("U+" <= codepoint) ==> CheckFields(codepoint, [ch], wubi) == Err(CodepointMismatch)
    ensures "U+" <= codepoint && ParseHexU32(codepoint[2..]).Err? ==>
      CheckFields(codepoint, [ch], wubi) == Err(ParseInt(ParseHexU32(codepoint[2..]).error))
    ensures "U+" <= codepoint && ParseHexU32(codepoint[2..]) != Ok(ch as int) && ParseHexU32(codepoint[2..]).Ok? ==>
      CheckFields(codepoint, [ch], wubi) == Err(CodepointMismatch)
    ensures CheckFields(codepoint, [ch], wubi).Err? && CheckFields(codepoint, [ch], wubi).error.ParseInt? ==>
      "U+" <= codepoint
  {
  }

  /** The codepoint check passes: the line's `U+` hex value is the char's scalar value. */
  predicate CodepointMatches(codepoint: string, ch: char)
  {
    "U+" <= codepoint && ParseHexU32(codepoint[2..]) == Ok(ch as int)
  }

  /**
   * Last the code field: a char outside `a..=y` is `NotValidChar`; otherwise a
   * length outside 1..=4 (an empty field included) is `Invalid`; otherwise the
   * entry is the char as a one-char phrase with the encoder's code, which
   * cannot fail at that point.
   */
  lemma CodeFieldChecked(codepoint: string, ch: char, wubi: string)
    requires CodepointMatches(codepoint, ch)
    ensures !AllLetters(wubi) ==> CheckFields(codepoint, [ch], wubi) == Err(NotValidChar)
    ensures AllLetters(wubi) && !(1 <= |wubi| <= 4) ==> CheckFields(codepoint, [ch], wubi) == Err(Invalid)
    ensures AllLetters(wubi) && 1 <= |wubi| <= 4 ==>
      Parse(AsBytes(wubi)).Ok? &&
      CheckFields(codepoint, [ch], wubi) == Ok(WubiEntry([ch], Parse(AsBytes(wubi)).value))
  {
    LetterBytes(wubi);
  }

  /** A successful parse is a one-char phrase whose code is the packed value of the code field's letters. */
  lemma ParsedEntry(line: string)
    requires ParseLine(line).Ok?
    ensures |ParseLine(line).value.phrase| == 1
    ensures exists codepoint, wubi ::
      line == codepoint + [TAB] + ParseLine(line).value.phrase + [TAB] + wubi &&
      IsCode(AsBytes(wubi)) && ParseLine(line).value.wubiCode.index == Packed(AsBytes(wubi))
  {
    var (codepoint, rest) := SplitOnce(line, TAB).value;
    var (chField, wubi) := SplitOnce(rest, TAB).value;
    assert line == codepoint + [TAB] + chField + [TAB] + wubi;
  }

  /** `U+4E00<TAB>一<TAB>ggll` is accepted. */
  lemma AcceptedExample()
    ensures ParseLine("U+4E00\t一\tggll").Ok?
  {
    assert "U+4E00\t一\tggll" == "U+4E00" + [TAB] + "一" + [TAB] + "ggll";
    LineFields("U+4E00", "一", "ggll");
    HexExample();
    assert CodepointMatches("U+4E00", '一');
    assert AllLetters("ggll");
    CodeFieldChecked("U+4E00", '一', "ggll");
  }

  lemma HexExample()
    ensures ParseHexU32("U+4E00"[2..]) == Ok(0x4E00)
  {
    assert "U+4E00"[2..] == "4E00";
    assert "4E00"[1..] == "E00" && "E00"[1..] == "00" && "00"[1..] == "0" && "0"[1..] == "";
    assert HexDigits("", 0x4E00) == Ok(0x4E00);
    assert HexDigits("0", 0x4E0) == Ok(0x4E00);
    assert HexDigits("00", 0x4E) == Ok(0x4E00);
    assert HexDigits("E00", 0x4) == Ok(0x4E00);
  }

  /** A codepoint that names another char is refused. */
  lemma MismatchExample()
    ensures ParseLine("U+4E01\t一\tggll") == Err(CodepointMismatch)
  {
    assert "U+4E01\t一\tggll" == "U+4E01" + [TAB] + "一" + [TAB] + "ggll";
    LineFields("U+4E01", "一", "ggll");
    HexMismatchExample();
    assert "一" == ['一'];
    CodepointChecked("U+4E01", '一', "ggll");
  }

  lemma HexMismatchExample()
    ensures ParseHexU32("U+4E01"[2..]) == Ok(0x4E01) && 0x4E01 != '一' as int
  {
    assert "U+4E01"[2..] == "4E01";
    assert "4E01"[1..] == "E01" && "E01"[1..] == "01" && "01"[1..] == "1" && "1"[1..] == "";
    assert HexDigits("", 0x4E01) == Ok(0x4E01);
    assert HexDigits("1", 0x4E0) == Ok(0x4E01);
    assert HexDigits("01", 0x4E) == Ok(0x4E01);
    assert HexDigits("E01", 0x4) == Ok(0x4E01);
  }
}
