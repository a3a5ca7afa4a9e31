/**
 * The forward emission loop of `main` (src/main.rs): the simplified stream
 * of `(code, ch)` and the full stream of `(code, phrases)` are pulled in
 * lockstep, one item of each per round, and turned into lines of
 * wb_nc_table.txt and wb_nc_ios_table.txt.
 */
module Forward {
  import opened Wrappers
  import opened Code
  import opened Streams

  /** A line of wb_nc_table.txt: the code, then each word after a space. */
  datatype TableLine = TableLine(code: WubiCode, words: seq<string>)

  /** A line of wb_nc_ios_table.txt: `code=payload`. */
  datatype IosLine = IosLine(code: WubiCode, payload: string)

  type SimplifiedItem = (WubiCode, char)
  type FullItem = (WubiCode, seq<string>)

  /** One `code=payload` line per word, in order. */
  function IosOf(code: WubiCode, words: seq<string>): seq<IosLine>
  {
    seq(|words|, i requires 0 <= i < |words| => IosLine(code, words[i]))
  }

  /** The ios lines that a run of table lines stands for: one per word. */
  function Expand(lines: seq<TableLine>): seq<IosLine>
  {
    if lines == [] then [] else IosOf(lines[0].code, lines[0].words) + Expand(lines[1..])
  }

  // ---------------------------------------------------------------------
  // The loop as written

  /** The table lines written in one round, by the branch the pair of items selects. */
  function TableRound(s: Option<SimplifiedItem>, f: Option<FullItem>): seq<TableLine>
  {
    match (s, f)
    case (None, None) => []
    case (None, Some((code, phrases))) => [TableLine(code, phrases)]
    case (Some((code, ch)), None) => [TableLine(code, [[ch]])]
    case (Some((sc, ch)), Some((fc, phrases))) =>
      if sc.index < fc.index then [TableLine(sc, [[ch]]), TableLine(fc, phrases)]
      else if sc.index == fc.index then [TableLine(fc, [[ch]] + phrases)]
      else [TableLine(fc, phrases), TableLine(sc, [[ch]])]
  }

  /** The ios lines written in one round. */
  function IosRound(s: Option<SimplifiedItem>, f: Option<FullItem>): seq<IosLine>
  {
    match (s, f)
    case (None, None) => []
    case (None, Some((code, phrases))) => IosOf(code, phrases)
    case (Some((code, ch)), None) => [IosLine(code, [ch])]
    case (Some((sc, ch)), Some((fc, phrases))) =>
      if sc.index < fc.index then [IosLine(sc, [ch])] + IosOf(fc, phrases)
      else if sc.index == fc.index then [IosLine(fc, [ch])] + IosOf(fc, phrases)
      else IosOf(fc, phrases) + [IosLine(sc, [ch])]
  }

  /** wb_nc_table.txt: the rounds' lines until both streams are exhausted. */
  function ForwardTable(simplified: seq<SimplifiedItem>, full: seq<FullItem>): seq<TableLine>
    decreases |simplified| + |full|
  {
    if simplified == [] && full == [] then []
    else TableRound(Head(simplified), Head(full)) + ForwardTable(Tail(simplified), Tail(full))
  }

  /** wb_nc_ios_table.txt, round by round. */
  function ForwardIos(simplified: seq<SimplifiedItem>, full: seq<FullItem>): seq<IosLine>
    decreases |simplified| + |full|
  {
    if simplified == [] && full == [] then []
    else IosRound(Head(simplified), Head(full)) + ForwardIos(Tail(simplified), Tail(full))
  }

  /** The forward `loop` of `main`: each round takes `next()` of both streams and writes both outputs. */
  method EmitForward(simplified: seq<SimplifiedItem>, full: seq<FullItem>)
    returns (table: seq<TableLine>, ios: seq<IosLine>)
    ensures table == ForwardTable(simplified, full)
    ensures ios == ForwardIos(simplified, full)
  {
    table, ios := [], [];
    var i := 0;
    while true
      invariant i <= Max(|simplified|, |full|)
      invariant table + ForwardTable(Drop(simplified, i), Drop(full, i)) == ForwardTable(simplified, full)
      invariant ios + ForwardIos(Drop(simplified, i), Drop(full, i)) == ForwardIos(simplified, full)
      decreases Max(|simplified|, |full|) - i
    {
      var s: Option<SimplifiedItem> := Next(simplified, i);
      var f: Option<FullItem> := Next(full, i);
      var lines: seq<TableLine>, iosLines: seq<IosLine>;
      match (s, f) {
        case (None, None) =>
          break;
        case (None, Some((code, phrases))) =>
          lines := [TableLine(code, phrases)];
          iosLines := IosOf(code, phrases);
          assert lines == TableRound(s, f) && iosLines == IosRound(s, f);
        case (Some((code, ch)), None) =>
          lines := [TableLine(code, [[ch]])];
          iosLines := [IosLine(code, [ch])];
          assert lines == TableRound(s, f) && iosLines == IosRound(s, f);
        case (Some((sc, ch)), Some((fc, phrases))) =>
          if sc.index < fc.index {
            lines := [TableLine(sc, [[ch]]), TableLine(fc, phrases)];
            iosLines := [IosLine(sc, [ch])] + IosOf(fc, phrases);
          } else if sc.index == fc.index {
            lines := [TableLine(fc, [[ch]] + phrases)];
            iosLines := [IosLine(fc, [ch])] + IosOf(fc, phrases);
          } else {
            lines := [TableLine(fc, phrases), TableLine(sc, [[ch]])];
            iosLines := IosOf(fc, phrases) + [IosLine(sc, [ch])];
          }
          assert lines == TableRound(s, f) && iosLines == IosRound(s, f);
      }
      ForwardStep(simplified, full, i);
      ghost var restTable := ForwardTable(Drop(simplified, i + 1), Drop(full, i + 1));
      ghost var restIos := ForwardIos(Drop(simplified, i + 1), Drop(full, i + 1));
      AppendAssoc(table, lines, restTable);
      AppendAssoc(ios, iosLines, restIos);
      table := table + lines;
      ios := ios + iosLines;
      i := i + 1;
    }
  }

  /** One round of the loop: what remains after i rounds is round i followed by what remains after it. */
  lemma ForwardStep(simplified: seq<SimplifiedItem>, full: seq<FullItem>, i: nat)
    requires i < |simplified| || i < |full|
    ensures ForwardTable(Drop(simplified, i), Drop(full, i)) ==
      TableRound(Next(simplified, i), Next(full, i)) + ForwardTable(Drop(simplified, i + 1), Drop(full, i + 1))
    ensures ForwardIos(Drop(simplified, i), Drop(full, i)) ==
      IosRound(Next(simplified, i), Next(full, i)) + ForwardIos(Drop(simplified, i + 1), Drop(full, i + 1))
  {
    DropStep(simplified, i);
    DropStep(full, i);
  }

  // ---------------------------------------------------------------------
  // Properties of the loop as written

  lemma {:induction false} ExpandAppend(a: seq<TableLine>, b: seq<TableLine>)
    ensures Expand(a + b) == Expand(a) + Expand(b)
  {
    if a == [] {
      assert a + b == b;
    } else {
      assert (a + b)[1..] == a[1..] + b;
      assert (a + b)[0] == a[0];
      ExpandAppend(a[1..], b);
      var first := IosOf(a[0].code, a[0].words);
      calc {
        Expand(a + b);
        first + Expand(a[1..] + b);
        first + (Expand(a[1..]) + Expand(b));
        (first + Expand(a[1..])) + Expand(b);
        Expand(a) + Expand(b);
      }
    }
  }

  /**
   * The ios output is the table output spelled out one word per line: every
   * char or phrase written to the table gets exactly one `code=payload` line,
   * in table order, the simplified char before the phrases of its code.
   */
  lemma {:induction false} IosFollowsTable(simplified: seq<SimplifiedItem>, full: seq<FullItem>)
    ensures ForwardIos(simplified, full) == Expand(ForwardTable(simplified, full))
    decreases |simplified| + |full|
  {
    if simplified != [] || full != [] {
      var s, f := Head(simplified), Head(full);
      var round := TableRound(s, f);
      assert IosRound(s, f) == Expand(round) by {
        if round != [] {
          assert round[1..] == [] || round[1..][1..] == [];
          if |round| == 2 {
            assert Expand(round[1..]) == IosOf(round[1].code, round[1].words) + Expand(round[1..][1..]);
          }
        }
        if s.Some? && f.Some? && s.value.0.index == f.value.0.index {
          assert IosOf(f.value.0, [[s.value.1]] + f.value.1) == [IosLine(f.value.0, [s.value.1])] + IosOf(f.value.0, f.value.1);
        }
      }
      IosFollowsTable(Tail(simplified), Tail(full));
      ExpandAppend(round, ForwardTable(Tail(simplified), Tail(full)));
    }
  }

  /** Rounds in which both streams yield the same code. */
  function SameCodeRounds(simplified: seq<SimplifiedItem>, full: seq<FullItem>): nat
  {
    if simplified == [] || full == [] then 0
    else (if simplified[0].0 == full[0].0 then 1 else 0) + SameCodeRounds(simplified[1..], full[1..])
  }

  /**
   * Every item becomes a line of its own, except that a round whose two codes
   * are equal writes one joined line; the loop ends once both are exhausted.
   */
  lemma {:induction false} TableLineCount(simplified: seq<SimplifiedItem>, full: seq<FullItem>)
    ensures |ForwardTable(simplified, full)| == |simplified| + |full| - SameCodeRounds(simplified, full)
    decreases |simplified| + |full|
  {
    if simplified != [] || full != [] {
      TableLineCount(Tail(simplified), Tail(full));
    }
  }

  /** The ios lines of the simplified stream alone and of the full stream alone. */
  function SimplifiedIos(simplified: seq<SimplifiedItem>): seq<IosLine>
  {
    seq(|simplified|, i requires 0 <= i < |simplified| => IosLine(simplified[i].0, [simplified[i].1]))
  }

  function FullIos(full: seq<FullItem>): seq<IosLine>
  {
    if full == [] then [] else IosOf(full[0].0, full[0].1) + FullIos(full[1..])
  }

  /** The ios lines of one simplified item, or of one full item, written on their own. */
  function SimplifiedItemIos(s: Option<SimplifiedItem>): seq<IosLine>
  {
    if s.Some? then [IosLine(s.value.0, [s.value.1])] else []
  }

  function FullItemIos(f: Option<FullItem>): seq<IosLine>
  {
    if f.Some? then IosOf(f.value.0, f.value.1) else []
  }

  lemma SimplifiedIosStep(simplified: seq<SimplifiedItem>)
    ensures SimplifiedIos(simplified) == SimplifiedItemIos(Head(simplified)) + SimplifiedIos(Tail(simplified))
  {
  }

  lemma FullIosStep(full: seq<FullItem>)
    ensures FullIos(full) == FullItemIos(Head(full)) + FullIos(Tail(full))
  {
  }

  /** The ios output holds every simplified char and every phrase once, and nothing else. */
  lemma {:induction false} IosComplete(simplified: seq<SimplifiedItem>, full: seq<FullItem>)
    ensures multiset(ForwardIos(simplified, full)) == multiset(SimplifiedIos(simplified)) + multiset(FullIos(full))
    decreases |simplified| + |full|
  {
    if simplified != [] || full != [] {
      var s, f := Head(simplified), Head(full);
      var ts, tf := Tail(simplified), Tail(full);
      assert ForwardIos(simplified, full) == IosRound(s, f) + ForwardIos(ts, tf);
      IosComplete(ts, tf);
      SimplifiedIosStep(simplified);
      FullIosStep(full);
      IosRoundItems(s, f);
    }
  }

  /** One round writes the ios line of its simplified item and those of its full item. */
  lemma IosRoundItems(s: Option<SimplifiedItem>, f: Option<FullItem>)
    ensures multiset(IosRound(s, f)) == multiset(SimplifiedItemIos(s)) + multiset(FullItemIos(f))
  {
  }

  /** The items of a stream come in strictly ascending code order. */
  predicate Ascending<T>(items: seq<(WubiCode, T)>)
  {
    forall i, j :: 0 <= i < j < |items| ==> items[i].0.index < items[j].0.index
  }

  /** Table lines in strictly ascending code order: each code on one line. */
  predicate LinesAscending(lines: seq<TableLine>)
  {
    forall i, j :: 0 <= i < j < |lines| ==> lines[i].code.index < lines[j].code.index
  }

  /**
   * The lockstep pairing does not merge: with both streams ascending, a
   * simplified stream of "a" and "b" against a full stream of "b" writes
   * "a X", "b Z", "b Y", so code "b" is split over two lines out of order.
   */
  lemma LockstepSplitsCode()
    ensures var simplified := [(WubiCode(1), 'X'), (WubiCode(2), 'Y')];
            var full := [(WubiCode(2), ["Z"])];
            Ascending(simplified) && Ascending(full) &&
            ForwardTable(simplified, full) ==
              [TableLine(WubiCode(1), ["X"]), TableLine(WubiCode(2), ["Z"]), TableLine(WubiCode(2), ["Y"])] &&
            !LinesAscending(ForwardTable(simplified, full))
  {
    var simplified := [(WubiCode(1), 'X'), (WubiCode(2), 'Y')];
    var full := [(WubiCode(2), ["Z"])];
    assert Tail(simplified) == [(WubiCode(2), 'Y')] && Tail(full) == [];
    assert Tail(Tail(simplified)) == [];
    var out := ForwardTable(simplified, full);
    assert out[1].code.index == out[2].code.index;
  }

  // ---------------------------------------------------------------------
  // An ordered two-way merge of the two streams

  /**
   * An ordered two-way merge of the two streams: the smaller code is written
   * and only its stream advances; equal codes are joined on one line, the
   * simplified char first.
   */
  function MergedTable(simplified: seq<SimplifiedItem>, full: seq<FullItem>): seq<TableLine>
    decreases |simplified| + |full|
  {
    if simplified == [] && full == [] then []
    else if simplified == [] then [TableLine(full[0].0, full[0].1)] + MergedTable(simplified, full[1..])
    else if full == [] then [TableLine(simplified[0].0, [[simplified[0].1]])] + MergedTable(simplified[1..], full)
    else
      var (sc, ch) := simplified[0];
      var (fc, phrases) := full[0];
      if sc.index < fc.index then [TableLine(sc, [[ch]])] + MergedTable(simplified[1..], full)
      else if sc.index == fc.index then [TableLine(fc, [[ch]] + phrases)] + MergedTable(simplified[1..], full[1..])
      else [TableLine(fc, phrases)] + MergedTable(simplified, full[1..])
  }

  /** Every line of a merge carries a code of one of its inputs, so a bound on those bounds the lines. */
  lemma {:induction false} MergedAbove(simplified: seq<SimplifiedItem>, full: seq<FullItem>, c: int)
    requires forall i :: 0 <= i < |simplified| ==> c < simplified[i].0.index
    requires forall i :: 0 <= i < |full| ==> c < full[i].0.index
    ensures forall k :: 0 <= k < |MergedTable(simplified, full)| ==> c < MergedTable(simplified, full)[k].code.index
    decreases |simplified| + |full|
  {
    if simplified == [] && full == [] {
    } else if simplified == [] || (full != [] && full[0].0.index < simplified[0].0.index) {
      MergedAbove(simplified, full[1..], c);
    } else if full == [] || simplified[0].0.index < full[0].0.index {
      MergedAbove(simplified[1..], full, c);
    } else {
      MergedAbove(simplified[1..], full[1..], c);
    }
  }

  /** Past its first item an ascending stream stays ascending, and every later code lies above the first. */
  lemma AscendingRest<T>(items: seq<(WubiCode, T)>)
    requires items != [] && Ascending(items)
    ensures Ascending(items[1..])
    ensures forall i :: 0 <= i < |items[1..]| ==> items[0].0.index < items[1..][i].0.index
  {
    assert forall i :: 0 <= i < |items[1..]| ==> items[1..][i] == items[i + 1];
  }

  /** A line whose code lies below every code of an ascending run may head it. */
  lemma ConsAscending(line: TableLine, rest: seq<TableLine>)
    requires LinesAscending(rest)
    requires forall k :: 0 <= k < |rest| ==> line.code.index < rest[k].code.index
    ensures LinesAscending([line] + rest)
  {
    var out := [line] + rest;
    forall i, j | 0 <= i < j < |out| ensures out[i].code.index < out[j].code.index {
      assert out[j] == rest[j - 1];
      if i > 0 {
        assert out[i] == rest[i - 1];
      }
    }
  }

  /** The merge of two ascending streams is ascending: every code on exactly one line, in order. */
  lemma {:induction false} MergedAscending(simplified: seq<SimplifiedItem>, full: seq<FullItem>)
    requires Ascending(simplified) && Ascending(full)
    ensures LinesAscending(MergedTable(simplified, full))
    decreases |simplified| + |full|
  {
    if simplified == [] && full == [] {
    } else if simplified == [] || (full != [] && full[0].0.index < simplified[0].0.index) {
      AscendingRest(full);
      MergedAscending(simplified, full[1..]);
      MergedAbove(simplified, full[1..], full[0].0.index);
      ConsAscending(TableLine(full[0].0, full[0].1), MergedTable(simplified, full[1..]));
    } else if full == [] || simplified[0].0.index < full[0].0.index {
      AscendingRest(simplified);
      MergedAscending(simplified[1..], full);
      MergedAbove(simplified[1..], full, simplified[0].0.index);
      ConsAscending(TableLine(simplified[0].0, [[simplified[0].1]]), MergedTable(simplified[1..], full));
    } else {
      AscendingRest(simplified);
      AscendingRest(full);
      MergedAscending(simplified[1..], full[1..]);
      MergedAbove(simplified[1..], full[1..], simplified[0].0.index);
      ConsAscending(TableLine(full[0].0, [[simplified[0].1]] + full[0].1), MergedTable(simplified[1..], full[1..]));
    }
  }

  /** The codes of a run of table lines. */
  function LineCodes(lines: seq<TableLine>): set<WubiCode>
  {
    if lines == [] then {} else {lines[0].code} + LineCodes(lines[1..])
  }

  /** The codes of a stream. */
  function ItemCodes<T>(items: seq<(WubiCode, T)>): set<WubiCode>
  {
    if items == [] then {} else {items[0].0} + ItemCodes(items[1..])
  }

  /** The merge writes every code of either input, and no other. */
  lemma {:induction false} MergedCodes(simplified: seq<SimplifiedItem>, full: seq<FullItem>)
    ensures LineCodes(MergedTable(simplified, full)) == ItemCodes(simplified) + ItemCodes(full)
    decreases |simplified| + |full|
  {
    if simplified == [] && full == [] {
      return;
    }
    var ts, tf := simplified, full;
    if simplified == [] || (full != [] && full[0].0.index < simplified[0].0.index) {
      tf := full[1..];
    } else if full == [] || simplified[0].0.index < full[0].0.index {
      ts := simplified[1..];
    } else {
      ts, tf := simplified[1..], full[1..];
      assert simplified[0].0 == full[0].0;
    }
    MergedCodes(ts, tf);
  }

  /** When both streams carry the same codes, round for round, the lockstep loop writes the merge. */
  lemma {:induction false} LockstepMergesAligned(simplified: seq<SimplifiedItem>, full: seq<FullItem>)
    requires |simplified| == |full|
    requires forall i :: 0 <= i < |simplified| ==> simplified[i].0 == full[i].0
    ensures ForwardTable(simplified, full) == MergedTable(simplified, full)
    decreases |simplified|
  {
    if simplified != [] {
      LockstepMergesAligned(simplified[1..], full[1..]);
    }
  }
}
