/**
 * The reverse emission loop of `main` (src/main.rs): the simplified stream
 * of `(ch, codes)` and the full stream of `(phrase, code)` are pulled in
 * lockstep and turned into lines of wb_nc_reverse_table.txt, the two keys
 * of a round compared as strings.
 */
module Reverse {
  import opened Wrappers
  import opened Code
  import opened Streams

  /** A line of wb_nc_reverse_table.txt: the key, then each code after a space. */
  datatype ReverseLine = ReverseLine(key: string, codes: seq<WubiCode>)

  type SimplifiedEntry = (char, seq<WubiCode>)
  type FullEntry = (string, WubiCode)

  datatype Ordering = Less | Equal | Greater

  /** `Ord::cmp` on strings: lexicographic by char, a proper prefix first. */
  function CompareStrings(a: string, b: string): Ordering
  {
    if a == [] && b == [] then Equal
    else if a == [] then Less
    else if b == [] then Greater
    else if a[0] < b[0] then Less
    else if b[0] < a[0] then Greater
    else CompareStrings(a[1..], b[1..])
  }

  // ---------------------------------------------------------------------
  // The loop as written

  /** The lines written in one round, by the branch the pair of entries selects. */
  function ReverseRound(s: Option<SimplifiedEntry>, f: Option<FullEntry>): seq<ReverseLine>
  {
    match (s, f)
    case (None, None) => []
    case (None, Some((phrase, code))) => [ReverseLine(phrase, [code])]
    case (Some((ch, codes)), None) => [ReverseLine([ch], codes)]
    case (Some((ch, codes)), Some((phrase, code))) =>
      match CompareStrings([ch], phrase)
      case Less => [ReverseLine([ch], codes), ReverseLine(phrase, [code])]
      case Equal => [ReverseLine([ch], codes + [code])]
      case Greater => [ReverseLine(phrase, [code]), ReverseLine([ch], codes)]
  }

  /** wb_nc_reverse_table.txt: the rounds' lines until both streams are exhausted. */
  function ReverseTable(simplified: seq<SimplifiedEntry>, full: seq<FullEntry>): seq<ReverseLine>
    decreases |simplified| + |full|
  {
    if simplified == [] && full == [] then []
    else ReverseRound(Head(simplified), Head(full)) + ReverseTable(Tail(simplified), Tail(full))
  }

  /** One round of the loop: what remains after i rounds is round i followed by what remains after it. */
  lemma ReverseStep(simplified: seq<SimplifiedEntry>, full: seq<FullEntry>, i: nat)
    requires i < |simplified| || i < |full|
    ensures ReverseTable(Drop(simplified, i), Drop(full, i)) ==
      ReverseRound(Next(simplified, i), Next(full, i)) + ReverseTable(Drop(simplified, i + 1), Drop(full, i + 1))
  {
    DropStep(simplified, i);
    DropStep(full, i);
  }

  /** The reverse `loop` of `main`: each round takes `next()` of both streams and writes its lines. */
  method EmitReverse(simplified: seq<SimplifiedEntry>, full: seq<FullEntry>) returns (lines: seq<ReverseLine>)
    ensures lines == ReverseTable(simplified, full)
  {
    lines := [];
    var i := 0;
    while true
      invariant i <= Max(|simplified|, |full|)
      invariant lines + ReverseTable(Drop(simplified, i), Drop(full, i)) == ReverseTable(simplified, full)
      decreases Max(|simplified|, |full|) - i
    {
      var s: Option<SimplifiedEntry> := Next(simplified, i);
      var f: Option<FullEntry> := Next(full, i);
      var round: seq<ReverseLine>;
      match (s, f) {
        case (None, None) =>
          break;
        case (None, Some((phrase, code))) =>
          round := [ReverseLine(phrase, [code])];
          assert round == ReverseRound(s, f);
        case (Some((ch, codes)), None) =>
          round := [ReverseLine([ch], codes)];
          assert round == ReverseRound(s, f);
        case (Some((ch, codes)), Some((phrase, code))) =>
          match CompareStrings([ch], phrase) {
            case Less =>
              round := [ReverseLine([ch], codes), ReverseLine(phrase, [code])];
            case Equal =>
              round := [ReverseLine([ch], codes + [code])];
            case Greater =>
              round := [ReverseLine(phrase, [code]), ReverseLine([ch], codes)];
          }
          assert round == ReverseRound(s, f);
      }
      ReverseStep(simplified, full, i);
      AppendAssoc(lines, round, ReverseTable(Drop(simplified, i + 1), Drop(full, i + 1)));
      lines := lines + round;
      i := i + 1;
    }
  }

  // ---------------------------------------------------------------------
  // String order

  /** Two strings compare `Equal` exactly when they are the same string. */
  lemma {:induction false} CompareEqual(a: string, b: string)
    ensures CompareStrings(a, b) == Equal <==> a == b
  {
    if a != [] && b != [] && a[0] == b[0] {
      CompareEqual(a[1..], b[1..]);
      if a[1..] == b[1..] {
        assert a == [a[0]] + a[1..] && b == [b[0]] + b[1..];
      }
    }
  }

  /** Swapping the operands swaps `Less` and `Greater`. */
  lemma {:induction false} CompareFlip(a: string, b: string)
    ensures CompareStrings(a, b) == Less <==> CompareStrings(b, a) == Greater
  {
    if a != [] && b != [] && a[0] == b[0] {
      CompareFlip(a[1..], b[1..]);
    }
  }

  /** `Less` is transitive. */
  lemma {:induction false} LessTransitive(a: string, b: string, c: string)
    requires CompareStrings(a, b) == Less && CompareStrings(b, c) == Less
    ensures CompareStrings(a, c) == Less
  {
    if a != [] && b != [] && c != [] && a[0] == b[0] && b[0] == c[0] {
      LessTransitive(a[1..], b[1..], c[1..]);
    }
  }

  // ---------------------------------------------------------------------
  // Properties of the loop as written

  /** A round with both entries writes one joined line exactly when the keys are the same string. */
  lemma JoinedIffSameKey(ch: char, codes: seq<WubiCode>, phrase: string, code: WubiCode)
    ensures |ReverseRound(Some((ch, codes)), Some((phrase, code)))| == 1 <==> [ch] == phrase
    ensures [ch] == phrase ==> ReverseRound(Some((ch, codes)), Some((phrase, code))) == [ReverseLine(phrase, codes + [code])]
    ensures CompareStrings([ch], phrase) == Less ==>
      ReverseRound(Some((ch, codes)), Some((phrase, code)))[0] == ReverseLine([ch], codes)
    ensures CompareStrings(phrase, [ch]) == Less ==>
      ReverseRound(Some((ch, codes)), Some((phrase, code)))[0] == ReverseLine(phrase, [code])
  {
    CompareEqual([ch], phrase);
    CompareFlip(phrase, [ch]);
  }

  /** The line of each simplified entry and of each full entry, written on its own. */
  function SimplifiedLines(simplified: seq<SimplifiedEntry>): seq<ReverseLine>
  {
    seq(|simplified|, i requires 0 <= i < |simplified| => ReverseLine([simplified[i].0], simplified[i].1))
  }

  function FullLines(full: seq<FullEntry>): seq<ReverseLine>
  {
    seq(|full|, i requires 0 <= i < |full| => ReverseLine(full[i].0, [full[i].1]))
  }

  /** A simplified stream on its own is written line for line, unchanged. */
  lemma {:induction false} SimplifiedAlone(simplified: seq<SimplifiedEntry>)
    ensures ReverseTable(simplified, []) == SimplifiedLines(simplified)
    decreases |simplified|
  {
    if simplified != [] {
      SimplifiedAlone(simplified[1..]);
      assert SimplifiedLines(simplified) == [ReverseLine([simplified[0].0], simplified[0].1)] + SimplifiedLines(simplified[1..]);
    }
  }

  /** A full stream on its own is written line for line, unchanged. */
  lemma {:induction false} FullAlone(full: seq<FullEntry>)
    ensures ReverseTable([], full) == FullLines(full)
    decreases |full|
  {
    if full != [] {
      FullAlone(full[1..]);
      assert FullLines(full) == [ReverseLine(full[0].0, [full[0].1])] + FullLines(full[1..]);
    }
  }

  /** Rounds in which both streams yield the same key. */
  function SameKeyRounds(simplified: seq<SimplifiedEntry>, full: seq<FullEntry>): nat
  {
    if simplified == [] || full == [] then 0
    else (if [simplified[0].0] == full[0].0 then 1 else 0) + SameKeyRounds(simplified[1..], full[1..])
  }

  /** Every entry gets a line of its own, except that a round with equal keys writes one joined line. */
  lemma {:induction false} ReverseLineCount(simplified: seq<SimplifiedEntry>, full: seq<FullEntry>)
    ensures |ReverseTable(simplified, full)| == |simplified| + |full| - SameKeyRounds(simplified, full)
    decreases |simplified| + |full|
  {
    if simplified != [] && full != [] {
      CompareEqual([simplified[0].0], full[0].0);
    }
    if simplified != [] || full != [] {
      ReverseLineCount(Tail(simplified), Tail(full));
    }
  }

  /** The (key, code) pairs a run of lines states, one per code. */
  function Pairs(lines: seq<ReverseLine>): seq<(string, WubiCode)>
  {
    if lines == [] then []
    else seq(|lines[0].codes|, j requires 0 <= j < |lines[0].codes| => (lines[0].key, lines[0].codes[j])) + Pairs(lines[1..])
  }

  lemma {:induction false} PairsAppend(a: seq<ReverseLine>, b: seq<ReverseLine>)
    ensures Pairs(a + b) == Pairs(a) + Pairs(b)
  {
    if a == [] {
      assert a + b == b;
    } else {
      assert (a + b)[1..] == a[1..] + b;
      assert (a + b)[0] == a[0];
      PairsAppend(a[1..], b);
      var first := Pairs([a[0]]);
      assert [a[0]][1..] == [];
      AppendAssoc(first, Pairs(a[1..]), Pairs(b));
    }
  }

  /** The line a simplified entry, or a full entry, gets when written on its own. */
  function SimplifiedLine(s: Option<SimplifiedEntry>): seq<ReverseLine>
  {
    if s.Some? then [ReverseLine([s.value.0], s.value.1)] else []
  }

  function FullLine(f: Option<FullEntry>): seq<ReverseLine>
  {
    if f.Some? then [ReverseLine(f.value.0, [f.value.1])] else []
  }

  lemma SimplifiedLinesStep(simplified: seq<SimplifiedEntry>)
    ensures SimplifiedLines(simplified) == SimplifiedLine(Head(simplified)) + SimplifiedLines(Tail(simplified))
  {
  }

  lemma FullLinesStep(full: seq<FullEntry>)
    ensures FullLines(full) == FullLine(Head(full)) + FullLines(Tail(full))
  {
  }

  /** One round states the pairs of its simplified entry and of its full entry, no more and no fewer. */
  lemma RoundPairs(s: Option<SimplifiedEntry>, f: Option<FullEntry>)
    ensures multiset(Pairs(ReverseRound(s, f))) ==
      multiset(Pairs(SimplifiedLine(s))) + multiset(Pairs(FullLine(f)))
  {
    var sl, fl := SimplifiedLine(s), FullLine(f);
    PairsAppend(sl, fl);
    PairsAppend(fl, sl);
    if s.Some? && f.Some? {
      var (ch, codes) := s.value;
      var (phrase, code) := f.value;
      CompareEqual([ch], phrase);
      if [ch] == phrase {
        var joined := ReverseLine([ch], codes + [code]);
        assert [joined][1..] == [] && sl[1..] == [] && fl[1..] == [];
        assert Pairs([joined]) == Pairs(sl) + Pairs(fl);
      } else {
        assert ReverseRound(s, f) == sl + fl || ReverseRound(s, f) == fl + sl;
      }
    } else {
      assert ReverseRound(s, f) == sl + fl;
    }
  }

  /** Every code of either stream is written beside its key exactly once, and nothing else is written. */
  lemma {:induction false} ReversePairsKept(simplified: seq<SimplifiedEntry>, full: seq<FullEntry>)
    ensures multiset(Pairs(ReverseTable(simplified, full))) ==
      multiset(Pairs(SimplifiedLines(simplified))) + multiset(Pairs(FullLines(full)))
    decreases |simplified| + |full|
  {
    if simplified != [] || full != [] {
      var s, f := Head(simplified), Head(full);
      var ts, tf := Tail(simplified), Tail(full);
      assert ReverseTable(simplified, full) == ReverseRound(s, f) + ReverseTable(ts, tf);
      ReversePairsKept(ts, tf);
      RoundPairs(s, f);
      PairsAppend(ReverseRound(s, f), ReverseTable(ts, tf));
      SimplifiedLinesStep(simplified);
      FullLinesStep(full);
      PairsAppend(SimplifiedLine(s), SimplifiedLines(ts));
      PairsAppend(FullLine(f), FullLines(tf));
    }
  }

  /** The simplified stream, the full stream and a run of lines, in strictly ascending key order. */
  predicate SimplifiedAscending(simplified: seq<SimplifiedEntry>)
  {
    forall i, j :: 0 <= i < j < |simplified| ==> CompareStrings([simplified[i].0], [simplified[j].0]) == Less
  }

  predicate FullAscending(full: seq<FullEntry>)
  {
    forall i, j :: 0 <= i < j < |full| ==> CompareStrings(full[i].0, full[j].0) == Less
  }

  predicate LinesAscending(lines: seq<ReverseLine>)
  {
    forall i, j :: 0 <= i < j < |lines| ==> CompareStrings(lines[i].key, lines[j].key) == Less
  }

  /**
   * The lockstep pairing does not merge: with both streams ascending, the
   * simplified entries "X", "Y" against the full entry "Z" are written as
   * "X", "Z", "Y", out of order.
   */
  lemma LockstepOutOfOrder()
    ensures var simplified := [('X', [WubiCode(1)]), ('Y', [WubiCode(2)])];
            var full := [("Z", WubiCode(3))];
            SimplifiedAscending(simplified) && FullAscending(full) &&
            ReverseTable(simplified, full) ==
              [ReverseLine("X", [WubiCode(1)]), ReverseLine("Z", [WubiCode(3)]), ReverseLine("Y", [WubiCode(2)])] &&
            !LinesAscending(ReverseTable(simplified, full))
  {
    var simplified := [('X', [WubiCode(1)]), ('Y', [WubiCode(2)])];
    var full := [("Z", WubiCode(3))];
    assert CompareStrings("X", "Y") == Less;
    assert CompareStrings("X", "Z") == Less;
    assert Tail(simplified) == [('Y', [WubiCode(2)])] && Tail(full) == [];
    assert Tail(Tail(simplified)) == [];
    var lines := ReverseTable(simplified, full);
    assert lines[1].key == "Z" && lines[2].key == "Y";
    assert CompareStrings("Z", "Y") == Greater;
  }

  // ---------------------------------------------------------------------
  // An ordered two-way merge of the two streams

  /**
   * An ordered two-way merge of the two streams: the smaller key is written
   * and only its stream advances; equal keys are joined on one line, the
   * simplified codes first.
   */
  function MergedReverse(simplified: seq<SimplifiedEntry>, full: seq<FullEntry>): seq<ReverseLine>
    decreases |simplified| + |full|
  {
    if simplified == [] && full == [] then []
    else if simplified == [] then [ReverseLine(full[0].0, [full[0].1])] + MergedReverse(simplified, full[1..])
    else if full == [] then [ReverseLine([simplified[0].0], simplified[0].1)] + MergedReverse(simplified[1..], full)
    else
      var (ch, codes) := simplified[0];
      var (phrase, code) := full[0];
      match CompareStrings([ch], phrase)
      case Less => [ReverseLine([ch], codes)] + MergedReverse(simplified[1..], full)
      case Equal => [ReverseLine([ch], codes + [code])] + MergedReverse(simplified[1..], full[1..])
      case Greater => [ReverseLine(phrase, [code])] + MergedReverse(simplified, full[1..])
  }

  /** Every line of a merge carries a key of one of its inputs, so a bound on those bounds the lines. */
  lemma {:induction false} MergedAbove(simplified: seq<SimplifiedEntry>, full: seq<FullEntry>, k: string)
    requires forall i :: 0 <= i < |simplified| ==> CompareStrings(k, [simplified[i].0]) == Less
    requires forall i :: 0 <= i < |full| ==> CompareStrings(k, full[i].0) == Less
    ensures forall n :: 0 <= n < |MergedReverse(simplified, full)| ==>
      CompareStrings(k, MergedReverse(simplified, full)[n].key) == Less
    decreases |simplified| + |full|
  {
    if simplified == [] && full == [] {
    } else if simplified == [] {
      MergedAbove(simplified, full[1..], k);
    } else if full == [] {
      MergedAbove(simplified[1..], full, k);
    } else {
      match CompareStrings([simplified[0].0], full[0].0)
      case Less => MergedAbove(simplified[1..], full, k);
      case Equal => MergedAbove(simplified[1..], full[1..], k);
      case Greater => MergedAbove(simplified, full[1..], k);
    }
  }

  /** Past its first entry an ascending stream stays ascending, and every later key lies above the first. */
  lemma SimplifiedRest(simplified: seq<SimplifiedEntry>)
    requires simplified != [] && SimplifiedAscending(simplified)
    ensures SimplifiedAscending(simplified[1..])
    ensures forall i :: 0 <= i < |simplified[1..]| ==> CompareStrings([simplified[0].0], [simplified[1..][i].0]) == Less
  {
    assert forall i :: 0 <= i < |simplified[1..]| ==> simplified[1..][i] == simplified[i + 1];
  }

  lemma FullRest(full: seq<FullEntry>)
    requires full != [] && FullAscending(full)
    ensures FullAscending(full[1..])
    ensures forall i :: 0 <= i < |full[1..]| ==> CompareStrings(full[0].0, full[1..][i].0) == Less
  {
    assert forall i :: 0 <= i < |full[1..]| ==> full[1..][i] == full[i + 1];
  }

  /** A line whose key lies below every key of an ascending run may head it. */
  lemma ConsAscending(line: ReverseLine, rest: seq<ReverseLine>)
    requires LinesAscending(rest)
    requires forall n :: 0 <= n < |rest| ==> CompareStrings(line.key, rest[n].key) == Less
    ensures LinesAscending([line] + rest)
  {
    var out := [line] + rest;
    forall i, j | 0 <= i < j < |out| ensures CompareStrings(out[i].key, out[j].key) == Less {
      assert out[j] == rest[j - 1];
      if i > 0 {
        assert out[i] == rest[i - 1];
      }
    }
  }

  /** The merge of two ascending streams is ascending: every key on exactly one line, in order. */
  lemma {:induction false} MergedAscending(simplified: seq<SimplifiedEntry>, full: seq<FullEntry>)
    requires SimplifiedAscending(simplified) && FullAscending(full)
    ensures LinesAscending(MergedReverse(simplified, full))
    decreases |simplified| + |full|
  {
    if simplified == [] && full == [] {
    } else if simplified == [] {
      FullRest(full);
      MergedAscending(simplified, full[1..]);
      MergedAbove(simplified, full[1..], full[0].0);
      ConsAscending(ReverseLine(full[0].0, [full[0].1]), MergedReverse(simplified, full[1..]));
    } else if full == [] {
      SimplifiedRest(simplified);
      MergedAscending(simplified[1..], full);
      MergedAbove(simplified[1..], full, [simplified[0].0]);
      ConsAscending(ReverseLine([simplified[0].0], simplified[0].1), MergedReverse(simplified[1..], full));
    } else {
      var (ch, codes) := simplified[0];
      var (phrase, code) := full[0];
      match CompareStrings([ch], phrase)
      case Less =>
        SimplifiedRest(simplified);
        forall i | 0 <= i < |full| ensures CompareStrings([ch], full[i].0) == Less {
          if i > 0 {
            LessTransitive([ch], phrase, full[i].0);
          }
        }
        MergedAscending(simplified[1..], full);
        MergedAbove(simplified[1..], full, [ch]);
        ConsAscending(ReverseLine([ch], codes), MergedReverse(simplified[1..], full));
      case Equal =>
        CompareEqual([ch], phrase);
        SimplifiedRest(simplified);
        FullRest(full);
        MergedAscending(simplified[1..], full[1..]);
        MergedAbove(simplified[1..], full[1..], [ch]);
        ConsAscending(ReverseLine([ch], codes + [code]), MergedReverse(simplified[1..], full[1..]));
      case Greater =>
        CompareFlip(phrase, [ch]);
        FullRest(full);
        forall i | 0 <= i < |simplified| ensures CompareStrings(phrase, [simplified[i].0]) == Less {
          if i > 0 {
            LessTransitive(phrase, [ch], [simplified[i].0]);
          }
        }
        MergedAscending(simplified, full[1..]);
        MergedAbove(simplified, full[1..], phrase);
        ConsAscending(ReverseLine(phrase, [code]), MergedReverse(simplified, full[1..]));
    }
  }

  /** The keys of a run of lines and of the two streams, as sets. */
  function LineKeySet(lines: seq<ReverseLine>): set<string>
  {
    if lines == [] then {} else {lines[0].key} + LineKeySet(lines[1..])
  }

  function EntryKeySet(simplified: seq<SimplifiedEntry>, full: seq<FullEntry>): set<string>
    decreases |simplified| + |full|
  {
    if simplified != [] then {[simplified[0].0]} + EntryKeySet(simplified[1..], full)
    else if full != [] then {full[0].0} + EntryKeySet(simplified, full[1..])
    else {}
  }

  /** The merge writes a line for every key of either input, and for no other key. */
  lemma {:induction false} MergedKeys(simplified: seq<SimplifiedEntry>, full: seq<FullEntry>)
    ensures LineKeySet(MergedReverse(simplified, full)) == EntryKeySet(simplified, full)
    decreases |simplified| + |full|
  {
    if simplified == [] && full == [] {
    } else if simplified == [] {
      MergedKeys(simplified, full[1..]);
    } else if full == [] {
      MergedKeys(simplified[1..], full);
    } else {
      EntryKeysSplit(simplified, full);
      match CompareStrings([simplified[0].0], full[0].0)
      case Less =>
        MergedKeys(simplified[1..], full);
      case Equal =>
        CompareEqual([simplified[0].0], full[0].0);
        MergedKeys(simplified[1..], full[1..]);
        EntryKeysSplit(simplified[1..], full);
        EntryKeysSplit(simplified[1..], full[1..]);
      case Greater =>
        MergedKeys(simplified, full[1..]);
        EntryKeysSplit(simplified, full[1..]);
    }
  }

  /** The key set of two streams is the union of their key sets. */
  lemma {:induction false} EntryKeysSplit(simplified: seq<SimplifiedEntry>, full: seq<FullEntry>)
    ensures EntryKeySet(simplified, full) == EntryKeySet(simplified, []) + EntryKeySet([], full)
    decreases |simplified|
  {
    if simplified != [] {
      EntryKeysSplit(simplified[1..], full);
    }
  }
}
