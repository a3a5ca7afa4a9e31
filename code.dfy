/**
 * The Wubi code encoder `WubiCode2::try_from` (src/table.rs).
 *
 * A code is 1 to 4 letters from `a` to `y`. Each letter is a 5-bit digit
 * (`a` = 1 ... `y` = 25) and the digits are packed right-aligned: the last
 * letter sits in the lowest 5 bits. The packed value is the index that the
 * dense tables are addressed by.
 */
module Code {
  import opened Wrappers
  import opened Utf8
  import opened Errors

  const LETTER_A: byte := 0x61
  const LETTER_Y: byte := 0x79

  /** The index of "yyyy": (25 << 15) + (25 << 10) + (25 << 5) + 25. */
  const MAX_INDEX: nat := 25 * 0x8000 + 25 * 0x400 + 25 * 0x20 + 25

  type CodeIndex = i: int | 0 <= i <= MAX_INDEX

  /** A parsed code; only the encoder builds one, so its index is always in range. */
  datatype WubiCode = WubiCode(index: CodeIndex)

  predicate IsCodeByte(b: byte) { LETTER_A <= b <= LETTER_Y }

  predicate AllCodeBytes(s: seq<byte>) { forall i :: 0 <= i < |s| ==> IsCodeByte(s[i]) }

  /** A well-formed code: 1 to 4 bytes, each in `a..=y`. */
  predicate IsCode(s: seq<byte>) { 1 <= |s| <= 4 && AllCodeBytes(s) }

  /** The 5-bit digit of a letter, `ch - b'a' + 1`. */
  function Digit(b: byte): (d: nat)
    requires IsCodeByte(b)
    ensures 1 <= d <= 25
  {
    (b - LETTER_A) as int + 1
  }

  /** 32 to the power k, that is `1 << (5 * k)`. */
  function Pow32(k: nat): (p: nat)
    ensures p >= 1
  {
    if k == 0 then 1 else 32 * Pow32(k - 1)
  }

  /**
   * The right-aligned 5-bit packing of a letter string, in Horner form:
   * the sum of Digit(s[i]) << 5 * (|s| - 1 - i).
   */
  function Packed(s: seq<byte>): nat
    requires AllCodeBytes(s)
  {
    if s == [] then 0 else 32 * Packed(s[..|s| - 1]) + Digit(s[|s| - 1])
  }

  /** Packed value of k letters `a`: the least code of length k. */
  function Ones(k: nat): nat
  {
    if k == 0 then 0 else 32 * Ones(k - 1) + 1
  }

  /** What `WubiCode2::try_from(&[u8])` returns. */
  function Parse(s: seq<byte>): Result<WubiCode, ParseError>
  {
    if |s| == 0 then Err(Empty)
    else if |s| >= 5 then Err(TooLongCode(s))
    else if !AllCodeBytes(s) then Err(NotValidChar)
    else
      PackedRange(s);
      OnesBelowMax(|s|);
      Ok(WubiCode(Packed(s)))
  }

  /** A string is a code when each char is a letter `a..=y`. */
  predicate AllLetters(s: string) { forall i :: 0 <= i < |s| ==> 'a' <= s[i] <= 'y' }

  // ---------------------------------------------------------------------
  // The encoder loop

  /** `WubiCode2::try_from(&[u8])`: count `len` down and add each digit shifted by `5 * len`. */
  method TryFromBytes(value: seq<byte>) returns (r: Result<WubiCode, ParseError>)
    ensures r == Parse(value)
  {
    if |value| == 0 {
      return Err(Empty);
    }
    if |value| >= 5 {
      return Err(TooLongCode(value));
    }
    var len := |value|;
    var index := 0;
    var i := 0;
    while i < |value|
      invariant 0 <= i <= |value|
      invariant len == |value| - i
      invariant AllCodeBytes(value[..i])
      invariant index == Packed(value[..i]) * Pow32(len)
    {
      len := len - 1;
      var ch := value[i];
      if !IsCodeByte(ch) {
        return Err(NotValidChar);
      }
      var data := (ch - LETTER_A) as int + 1;
      ShiftStep(value[..i + 1], len);
      assert value[..i + 1][..i] == value[..i];
      index := index + data * Pow32(len);
      i := i + 1;
    }
    assert value[..i] == value;
    PackedRange(value);
    OnesBelowMax(|value|);
    return Ok(WubiCode(index));
  }

  /** `WubiCode2::try_from(&str)`: the encoder applied to the string's UTF-8 bytes. */
  method TryFromStr(value: string) returns (r: Result<WubiCode, ParseError>)
    ensures r == Parse(AsBytes(value))
    ensures r.Ok? <==> 1 <= |value| <= 4 && AllLetters(value)
  {
    r := TryFromBytes(AsBytes(value));
    LetterBytes(value);
  }

  // ---------------------------------------------------------------------
  // Arithmetic helpers

  lemma ShiftStep(s: seq<byte>, len: nat)
    requires s != [] && AllCodeBytes(s)
    ensures Packed(s) * Pow32(len) == Packed(s[..|s| - 1]) * Pow32(len + 1) + Digit(s[|s| - 1]) * Pow32(len)
  {
    var p := Packed(s[..|s| - 1]);
    calc {
      Packed(s) * Pow32(len);
      (32 * p + Digit(s[|s| - 1])) * Pow32(len);
      p * (32 * Pow32(len)) + Digit(s[|s| - 1]) * Pow32(len);
    }
  }

  /** From 32a + x == 32b + y with both digits below 32, a == b and x == y. */
  lemma DigitsUnique(a: nat, x: nat, b: nat, y: nat)
    requires x < 32 && y < 32
    requires 32 * a + x == 32 * b + y
    ensures a == b && x == y
  {
  }

  lemma {:induction false} OnesMonotone(j: nat, k: nat)
    requires j <= k
    ensures Ones(j) <= Ones(k)
  {
    if j < k {
      OnesMonotone(j, k - 1);
    }
  }

  lemma OnesBelowMax(k: nat)
    requires 1 <= k <= 4
    ensures 1 <= Ones(k) && 25 * Ones(k) <= MAX_INDEX
  {
    OnesMonotone(1, k);
    OnesMonotone(k, 4);
  }

  // ---------------------------------------------------------------------
  // Properties of the packing

  /** A string of k letters packs to a value between "a...a" and "y...y" of length k. */
  lemma {:induction false} PackedRange(s: seq<byte>)
    requires AllCodeBytes(s)
    ensures Ones(|s|) <= Packed(s) <= 25 * Ones(|s|)
  {
    if s != [] {
      PackedRange(s[..|s| - 1]);
    }
  }

  /** Every well-formed code has 1 <= index <= MAX_INDEX, so indexing the dense tables is in bounds. */
  lemma IndexBounds(s: seq<byte>)
    requires IsCode(s)
    ensures Parse(s).Ok?
    ensures 1 <= Parse(s).value.index <= MAX_INDEX
  {
    PackedRange(s);
    OnesBelowMax(|s|);
  }

  /** Distinct letter strings pack to distinct values. */
  lemma {:induction false} PackedInjective(s: seq<byte>, t: seq<byte>)
    requires AllCodeBytes(s) && AllCodeBytes(t)
    requires Packed(s) == Packed(t)
    ensures s == t
  {
    if s == [] || t == [] {
      PackedRange(s);
      PackedRange(t);
    } else {
      var ps, pt := s[..|s| - 1], t[..|t| - 1];
      DigitsUnique(Packed(ps), Digit(s[|s| - 1]), Packed(pt), Digit(t[|t| - 1]));
      PackedInjective(ps, pt);
      assert s == ps + [s[|s| - 1]];
      assert t == pt + [t[|t| - 1]];
    }
  }

  /** Two inputs that parse to the same code are the same input. */
  lemma ParseInjective(s: seq<byte>, t: seq<byte>)
    requires Parse(s).Ok? && Parse(t).Ok?
    requires Parse(s).value == Parse(t).value
    ensures s == t
  {
    PackedInjective(s, t);
  }

  /** The error cases of the encoder, decided by length before any byte is looked at. */
  lemma ParseOutcomes(s: seq<byte>)
    ensures |s| == 0 ==> Parse(s) == Err(Empty)
    ensures |s| >= 5 ==> Parse(s) == Err(TooLongCode(s))
    ensures 1 <= |s| <= 4 && !AllCodeBytes(s) ==> Parse(s) == Err(NotValidChar)
    ensures Parse(s).Ok? <==> IsCode(s)
  {
  }

  /** The examples of the source's unit test (src/table.rs:140-156). */
  lemma ParseExamples()
    ensures Parse([0x61, 0x62, 0x63]) == Ok(WubiCode(1091))
    ensures Parse([0x61, 0x62, 0x63, 0x64]) == Ok(WubiCode(1 * 0x8000 + 2 * 0x400 + 3 * 0x20 + 4))
    ensures Parse([]).Err?
    ensures Parse([0x61, 0x00, 0x63, 0x64]).Err?
    ensures Parse([0x61, 0x62, 0x63, 0x64, 0x65]).Err?
    ensures Parse([0x79, 0x79, 0x79, 0x79]) == Ok(WubiCode(MAX_INDEX))
  {
    var a: seq<byte> := [0x61];
    var ab: seq<byte> := [0x61, 0x62];
    var abc: seq<byte> := [0x61, 0x62, 0x63];
    var abcd: seq<byte> := [0x61, 0x62, 0x63, 0x64];
    assert a[..0] == [] && ab[..1] == a && abc[..2] == ab && abcd[..3] == abc;
    assert Packed(a) == 1 && Packed(ab) == 34 && Packed(abc) == 1091;
    assert Packed(abcd) == 34916;
    var y1: seq<byte> := [0x79];
    var y2: seq<byte> := [0x79, 0x79];
    var y3: seq<byte> := [0x79, 0x79, 0x79];
    var y4: seq<byte> := [0x79, 0x79, 0x79, 0x79];
    assert y1[..0] == [] && y2[..1] == y1 && y3[..2] == y2 && y4[..3] == y3;
    assert Packed(y1) == 25 && Packed(y2) == 825 && Packed(y3) == 26425;
    assert Packed(y4) == MAX_INDEX;
    var bad: seq<byte> := [0x61, 0x00, 0x63, 0x64];
    assert !IsCodeByte(bad[1]);
  }

  // ---------------------------------------------------------------------
  // Order of indices

  /** Lexicographic order of two letter strings of the same length. */
  predicate LexLess(s: seq<byte>, t: seq<byte>)
  {
    |s| > 0 && |t| > 0 && (s[0] < t[0] || (s[0] == t[0] && LexLess(s[1..], t[1..])))
  }

  /** The packed value of x followed by u: the digit of x shifted past u. */
  lemma {:induction false} PackedCons(x: byte, u: seq<byte>)
    requires IsCodeByte(x) && AllCodeBytes(u)
    ensures AllCodeBytes([x] + u)
    ensures Packed([x] + u) == Digit(x) * Pow32(|u|) + Packed(u)
  {
    var s := [x] + u;
    if u != [] {
      assert s[..|s| - 1] == [x] + u[..|u| - 1];
      PackedCons(x, u[..|u| - 1]);
      calc {
        Packed(s);
        32 * Packed([x] + u[..|u| - 1]) + Digit(u[|u| - 1]);
        32 * (Digit(x) * Pow32(|u| - 1) + Packed(u[..|u| - 1])) + Digit(u[|u| - 1]);
        Digit(x) * (32 * Pow32(|u| - 1)) + (32 * Packed(u[..|u| - 1]) + Digit(u[|u| - 1]));
      }
    }
  }

  /** A letter string of length k packs below 32^k. */
  lemma PackedBelowPow(s: seq<byte>)
    requires AllCodeBytes(s)
    ensures Packed(s) < Pow32(|s|)
  {
    PackedRange(s);
    OnesBelowPow(|s|);
  }

  lemma {:induction false} OnesBelowPow(k: nat)
    ensures 25 * Ones(k) < Pow32(k)
  {
    if k > 0 {
      OnesBelowPow(k - 1);
    }
  }

  /** A smaller leading digit wins whatever the lower digits are. */
  lemma LeadingDigitDecides(dx: nat, pu: nat, dy: nat, pv: nat, m: nat)
    requires dx < dy && pu < m
    ensures dx * m + pu < dy * m + pv
  {
    calc {
      dx * m + pu;
    <
      dx * m + m;
    ==
      (dx + 1) * m;
    <=  { assert dx + 1 <= dy; }
      dy * m;
    }
  }

  /** For codes of the same length, index order is lexicographic order. */
  lemma {:induction false} SameLengthOrder(s: seq<byte>, t: seq<byte>)
    requires AllCodeBytes(s) && AllCodeBytes(t) && |s| == |t|
    ensures Packed(s) < Packed(t) <==> LexLess(s, t)
  {
    if s != [] {
      var u, v := s[1..], t[1..];
      assert s == [s[0]] + u && t == [t[0]] + v;
      PackedCons(s[0], u);
      PackedCons(t[0], v);
      PackedBelowPow(u);
      PackedBelowPow(v);
      var dx, dy := Digit(s[0]), Digit(t[0]);
      if dx < dy {
        LeadingDigitDecides(dx, Packed(u), dy, Packed(v), Pow32(|u|));
      } else if dy < dx {
        LeadingDigitDecides(dy, Packed(v), dx, Packed(u), Pow32(|u|));
      } else {
        SameLengthOrder(u, v);
      }
    }
  }

  /**
   * Index order is shortlex order: a shorter code has a smaller index than
   * any longer one, and codes of one length are ordered lexicographically.
   */
  lemma IndexOrder(s: seq<byte>, t: seq<byte>)
    requires IsCode(s) && IsCode(t)
    ensures Parse(s).value.index < Parse(t).value.index <==> |s| < |t| || (|s| == |t| && LexLess(s, t))
  {
    IndexBounds(s);
    IndexBounds(t);
    PackedRange(s);
    PackedRange(t);
    if |s| < |t| {
      OnesMonotone(|s| + 1, |t|);
    } else if |t| < |s| {
      OnesMonotone(|t| + 1, |s|);
    } else {
      SameLengthOrder(s, t);
    }
  }

  /** "b" has a smaller index than "aa", though "aa" comes first in dictionary order. */
  lemma ShorterCodeFirst()
    ensures Parse([0x62]).value.index < Parse([0x61, 0x61]).value.index
  {
    var aa: seq<byte> := [0x61, 0x61];
    assert aa[..1] == [0x61] && aa[..1][..0] == [];
  }

  // ---------------------------------------------------------------------
  // The bytes of a string code

  /** A string's bytes are all letters exactly when its chars are, and then there is one byte per char. */
  lemma {:induction false} LetterBytes(s: string)
    ensures AllCodeBytes(AsBytes(s)) <==> AllLetters(s)
    ensures AllLetters(s) ==> |AsBytes(s)| == |s|
  {
    if s != [] {
      LetterBytes(s[1..]);
      var e := EncodeChar(s[0]);
      assert AsBytes(s) == e + AsBytes(s[1..]);
      if AllCodeBytes(AsBytes(s)) {
        assert IsCodeByte(AsBytes(s)[0]);
        forall i | 0 <= i < |AsBytes(s[1..])| ensures IsCodeByte(AsBytes(s[1..])[i]) {
          assert AsBytes(s[1..])[i] == AsBytes(s)[|e| + i];
        }
        forall i | 0 <= i < |s| ensures 'a' <= s[i] <= 'y' {
          if i > 0 { assert s[i] == s[1..][i - 1]; }
        }
      }
      if AllLetters(s) {
        assert AllLetters(s[1..]) by {
          forall i | 0 <= i < |s| - 1 ensures 'a' <= s[1..][i] <= 'y' { assert s[1..][i] == s[i + 1]; }
        }
        assert e == [s[0] as int as byte];
      }
    }
  }
}
