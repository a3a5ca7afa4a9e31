/**
 * The two dense code tables of src/table.rs: `FullCodeTable2`, one list of
 * phrases per code, and `SimplifiedCodeTable2`, a code-to-char slot per code
 * kept consistent with a list of codes per char.
 */
module Tables {
  import opened Wrappers
  import opened Errors
  import opened Code

  /** The accepted chars, U+2EB3 to U+9FFF, and how many there are. */
  const CHAR_MIN: char := '\U{2EB3}'
  const CHAR_MAX: char := '\U{9FFF}'
  const CHAR_COUNT: nat := CHAR_MAX as int - CHAR_MIN as int + 1

  predicate InRange(ch: char) { CHAR_MIN <= ch <= CHAR_MAX }

  /** The slot of an accepted char in `char_to_code`: `ch as usize - CHAR_MIN as usize`. */
  function Slot(ch: char): (k: nat)
    requires InRange(ch)
    ensures k < CHAR_COUNT
  {
    ch as int - CHAR_MIN as int
  }

  /** The char whose slot is k. */
  function CharAt(k: nat): (ch: char)
    requires k < CHAR_COUNT
    ensures InRange(ch) && Slot(ch) == k
  {
    (k + CHAR_MIN as int) as char
  }

  /** `FullCodeTable2`: for each code index, the phrases added under it, in order. */
  class FullCodeTable {
    const codeToPhrases: array<seq<string>>

    ghost predicate Valid()
    {
      codeToPhrases.Length == MAX_INDEX + 1
    }

    /** `FullCodeTable2::new`: every list starts empty. */
    constructor ()
      ensures Valid() && fresh(codeToPhrases)
      ensures forall i :: 0 <= i < codeToPhrases.Length ==> codeToPhrases[i] == []
    {
      codeToPhrases := new seq<string>[MAX_INDEX + 1](_ => []);
    }

    /** `FullCodeTable2::phrases`: the list kept for a code. */
    function Phrases(code: WubiCode): (r: seq<string>)
      reads codeToPhrases
      requires Valid()
      ensures r == codeToPhrases[code.index]
    {
      codeToPhrases[code.index]
    }

    /** `FullCodeTable2::add_phrase`: push the phrase onto the code's list. */
    method AddPhrase(code: WubiCode, phrase: string)
      requires Valid()
      modifies codeToPhrases
      ensures Valid()
      ensures Phrases(code) == old(Phrases(code)) + [phrase]
      ensures forall other: WubiCode :: other != code ==> Phrases(other) == old(Phrases(other))
    {
      codeToPhrases[code.index] := codeToPhrases[code.index] + [phrase];
    }
  }

  /**
   * `SimplifiedCodeTable2`: `codeToChar[i]` is the char stored under the code
   * with index i, and `charToCode[Slot(c)]` lists the codes stored for c in
   * the order they were inserted. Valid() says the two describe the same
   * relation, with no code listed twice.
   */
  class SimplifiedCodeTable {
    const codeToChar: array<Option<char>>
    const charToCode: array<seq<WubiCode>>

    ghost predicate Valid()
      reads codeToChar, charToCode
    {
      codeToChar.Length == MAX_INDEX + 1 &&
      charToCode.Length == CHAR_COUNT &&
      (forall i :: 0 <= i < codeToChar.Length && codeToChar[i].Some? ==>
        InRange(codeToChar[i].value) && WubiCode(i) in charToCode[Slot(codeToChar[i].value)]) &&
      (forall k, j :: 0 <= k < charToCode.Length && 0 <= j < |charToCode[k]| ==>
        codeToChar[charToCode[k][j].index] == Some(CharAt(k))) &&
      (forall k, j1, j2 :: 0 <= k < charToCode.Length && 0 <= j1 < j2 < |charToCode[k]| ==>
        charToCode[k][j1] != charToCode[k][j2])
    }

    /** `SimplifiedCodeTable2::new`: every slot empty, every list empty. */
    constructor ()
      ensures Valid() && fresh(codeToChar) && fresh(charToCode)
      ensures forall i :: 0 <= i < codeToChar.Length ==> codeToChar[i] == None
      ensures forall k :: 0 <= k < charToCode.Length ==> charToCode[k] == []
    {
      codeToChar := new Option<char>[MAX_INDEX + 1](_ => None);
      charToCode := new seq<WubiCode>[CHAR_COUNT](_ => []);
    }

    /** `SimplifiedCodeTable2::char_of_code`: the char stored under a code, if any. */
    function CharOfCode(code: WubiCode): (r: Option<char>)
      reads codeToChar, charToCode
      requires Valid()
      ensures r.Some? ==> InRange(r.value) && code in charToCode[Slot(r.value)]
      ensures r.None? ==> forall k :: 0 <= k < CHAR_COUNT ==> code !in charToCode[k]
    {
      codeToChar[code.index]
    }

    /**
     * `SimplifiedCodeTable2::code_of_char`: None for a char outside the range,
     * else the codes stored for it, which are exactly the codes whose slot
     * holds it, each once.
     */
    function CodeOfChar(ch: char): (r: Option<seq<WubiCode>>)
      reads codeToChar, charToCode
      requires Valid()
      ensures r.None? <==> !InRange(ch)
      ensures r.Some? ==> forall code: WubiCode :: code in r.value <==> CharOfCode(code) == Some(ch)
      ensures r.Some? ==> forall j1, j2 :: 0 <= j1 < j2 < |r.value| ==> r.value[j1] != r.value[j2]
    {
      if !InRange(ch) then None else Some(charToCode[Slot(ch)])
    }

    /**
     * `SimplifiedCodeTable2::insert`: a char outside the range is refused
     * first, then an occupied code slot; otherwise the slot is set and the
     * code appended to the char's list.
     */
    method Insert(code: WubiCode, ch: char) returns (r: Result<(), ParseError>)
      requires Valid()
      modifies codeToChar, charToCode
      ensures Valid()
      ensures !InRange(ch) ==> r == Err(NotValidChar)
      ensures InRange(ch) && old(codeToChar[code.index]).Some? ==> r == Err(Invalid)
      ensures r.Ok? <==> InRange(ch) && old(codeToChar[code.index]) == None
      ensures r.Err? ==> codeToChar[..] == old(codeToChar[..]) && charToCode[..] == old(charToCode[..])
      ensures r.Ok? ==> codeToChar[..] == old(codeToChar[..])[code.index := Some(ch)]
      ensures r.Ok? ==> charToCode[..] == old(charToCode[..])[Slot(ch) := old(charToCode[Slot(ch)]) + [code]]
      ensures r.Ok? ==> CharOfCode(code) == Some(ch) && CodeOfChar(ch) == Some(old(CodeOfChar(ch)).value + [code])
    {
      if !InRange(ch) {
        return Err(NotValidChar);
      }
      if codeToChar[code.index].Some? {
        return Err(Invalid);
      }
      var k := Slot(ch);
      forall j | 0 <= j < |charToCode[k]| ensures charToCode[k][j] != code {
        assert codeToChar[charToCode[k][j].index].Some?;
      }
      codeToChar[code.index] := Some(ch);
      charToCode[k] := charToCode[k] + [code];
      return Ok(());
    }
  }
}
