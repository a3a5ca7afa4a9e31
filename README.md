# wubi-table: a verified model of the code-table engine

wubi-table builds Wubi input-method tables. It reads a simplified table (one
char per short code), a CJK table (`U+hex<TAB>char<TAB>code` lines) and a phrase
list, and writes three text tables:

- `wb_nc_table.txt`, one line per code;
- `wb_nc_ios_table.txt`, one `code=word` line per word;
- `wb_nc_reverse_table.txt`, one line per char or phrase, listing its codes.

This Dafny project models the engine at the centre of it:

- **`Code`** (`code.dfy`): the `WubiCode2` encoder. A code is 1 to 4 letters
  `a`..`y`. Each letter is a 5-bit digit, `a` = 1 … `y` = 25, and the last
  letter sits in the lowest 5 bits. `TryFromBytes` is the decrementing-`len`
  loop of the source and is proved equal to the arithmetic definition
  `Parse`. The lemmas prove the following about `Parse`:
  - the error cases;
  - the range 1..`MAX_INDEX` (845625, the index of `yyyy`);
  - injectivity;
  - the order of indices.
- **`Tables`** (`tables.dfy`): `FullCodeTable2` and `SimplifiedCodeTable2` as
  classes over arrays indexed by code.
  - `SimplifiedCodeTable.Valid()` is the two-way consistency between `code_to_char` and
    `char_to_code`. `Insert` preserves it.
  - `CodeOfChar` and `CharOfCode` read the relation back from either side.
- **`LineParse`** (`line.dfy`): `parse_line_with_codepoint`, with its checks
  in source order and one error variant for each. The byte-counting loop is a
  method, proved equal to the functional definition `ParseLine`.
- **`Forward`** and **`Reverse`** (`forward.dfy`, `reverse.dfy`): the two
  emission loops of `main`. Each becomes a method that pulls one item from each
  input stream per round and appends the lines of that round. Each method is
  proved equal to a recursive definition, which the lemmas characterise.
- Support modules:
  - `Wrappers` (`Option`, `Result`);
  - `Utf8` (the UTF-8 bytes of a string, for `as_bytes`);
  - `Errors` (`ParseError`);
  - `Streams` (the i-th `next()` of a stream).

Three facts about the code shape the model:

- **Packing.** The code packs right-aligned base-32 digits, with the last letter
  lowest, so `abc` = 1091 (src/table.rs:21-23, 140-143).
- **Order of indices.** Index order is therefore *shortlex*: a shorter code
  always has a smaller index, so `b` (2) comes before `aa` (33). This is proved
  as `Code.IndexOrder` and `Code.ShorterCodeFirst`. Alphabetical order holds only
  among codes of the same length.
- **Emission loops.** The loops advance both streams every round
  (src/main.rs:132, 190), so they are not an ordered merge. The model keeps that
  behaviour (see Findings).

## Model

| member | source | states |
|---|---|---|
| Code.TryFromBytes | src/table.rs:9-32 | The loop returns exactly `Parse(value)`: `Empty` for no bytes, then `TooLongCode(value)` for 5 or more, then `NotValidChar` for any byte outside `a..=y`, else the right-aligned base-32 index. |
| Code.TryFromStr | src/table.rs:34-40 | The `&str` conversion encodes the string's UTF-8 bytes. It succeeds exactly when the string is 1 to 4 letters `a`..`y`. |
| Code.ParseOutcomes | src/table.rs:12-28 | Each error case holds, and the length check comes before any byte is inspected. `Parse` succeeds iff the input is 1 to 4 code bytes. |
| Code.ParseExamples | src/table.rs:139-157 | The unit test's cases: `abc` = 1091, `abcd` = (1<<15)+(2<<10)+(3<<5)+4, `""`, `a\0cd` and `abcde` are errors, `yyyy` = MAX_INDEX. |
| Code.IndexBounds | src/table.rs:3 | Every valid code has 1 <= index <= MAX_INDEX, so indexing the tables by `code.index` is in bounds. |
| Code.PackedRange | src/table.rs:15-28 | An n-letter code's index lies between the index of n `a`s and that of n `y`s. |
| Code.PackedInjective | src/table.rs:15-28 | Distinct strings of code letters pack to distinct integers. |
| Code.ParseInjective | src/table.rs:42-46 | Distinct valid codes give distinct `WubiCode2` values, which the intended inverse conversion relies on. |
| Code.SameLengthOrder | src/table.rs:15-28 | Among codes of equal length, index order is alphabetical order. |
| Code.IndexOrder | src/table.rs:15-28 | Index order is shortlex: shorter first, then alphabetical. |
| Code.ShorterCodeFirst | src/table.rs:15-28 | `b` has a smaller index than `aa`. |
| Code.LetterBytes | src/table.rs:37-39 | A string's UTF-8 bytes are all code bytes iff its chars are all `a`..`y`, and then there is one byte per char. |
| Tables.FullCodeTable.constructor | src/table.rs:54-58 | Every code's phrase list starts empty. |
| Tables.FullCodeTable.Phrases | src/table.rs:60-62 | The phrase list kept for the code. |
| Tables.FullCodeTable.AddPhrase | src/table.rs:60-67 | The phrase is appended at the end of that code's list, and every other code's list is unchanged. |
| Tables.SimplifiedCodeTable.constructor | src/table.rs:80-86 | Every code slot is `None`, every char's list is empty, and the consistency invariant holds. |
| Tables.SimplifiedCodeTable.Insert | src/table.rs:88-108 | A char outside U+2EB3..U+9FFF gives `NotValidChar`, then an occupied slot gives `Invalid`, and both errors leave both arrays unchanged. Success sets exactly that slot and appends exactly that code to exactly that char's list. The two-way invariant, including no duplicate codes, is preserved. |
| Tables.SimplifiedCodeTable.CodeOfChar | src/table.rs:116-121 | `None` iff the char is out of range. Otherwise the codes listed are exactly the codes whose slot holds the char, each once. |
| Tables.SimplifiedCodeTable.CharOfCode | src/table.rs:123-125 | A stored char is in range and lists the code. An empty slot's code is listed under no char. |
| LineParse.SplitOnce | src/main.rs:43-48 | `None` iff the separator is absent. Otherwise the line is `before + sep + after`, split at the first separator. |
| LineParse.ParseLineWithCodepoint | src/main.rs:42-72 | The method, with its byte-counting loop, returns exactly `ParseLine(line)`. |
| LineParse.NoTabFoundIff | src/main.rs:43-48 | `NoTabFound` is returned iff the line holds fewer than two tabs, and it carries the whole line. |
| LineParse.LineFields | src/main.rs:43-48 | The fields are the text before the first tab and between the first two tabs. Everything after the second tab, further tabs included, is the code field. |
| LineParse.CharFieldChecked | src/main.rs:49-54 | `MultipleCharacters(field)` is returned iff the char field does not hold exactly one char. |
| LineParse.CodepointChecked | src/main.rs:55-57 | A missing `U+` prefix gives `CodepointMismatch`. A hex failure gives `ParseInt`, and only after the prefix passed. A hex value other than the char's scalar value gives `CodepointMismatch`. |
| LineParse.CodeFieldChecked | src/main.rs:58-71 | Once the codepoint matches: a byte outside `a..=y` gives `NotValidChar`; 0 or more than 4 bytes gives `Invalid`; otherwise the entry is the char and the encoder's code for the field. |
| LineParse.ParsedEntry | src/main.rs:68-71 | A parsed entry's phrase is one char, and its code is the encoder's successful result on the line's code field. |
| LineParse.AcceptedExample | src/main.rs:42-72 | `U+4E00<TAB>一<TAB>ggll` is accepted. |
| LineParse.MismatchExample | src/main.rs:55-57 | `U+4E01<TAB>一<TAB>ggll` gives `CodepointMismatch`. |
| Forward.EmitForward | src/main.rs:131-180 | The loop writes exactly `ForwardTable` and `ForwardIos`. It stops when both streams are exhausted and advances both every round. Equal codes give one joined line `code ch p1 … pn`. Different codes give two lines, the smaller code first. |
| Forward.IosFollowsTable | src/main.rs:134-176 | The ios output is the table output with one `code=word` line per word, in table order, the simplified char before the phrases at an equal code. |
| Forward.TableLineCount | src/main.rs:131-180 | The table has one line per item, less one for each round whose two codes are equal. |
| Forward.IosComplete | src/main.rs:134-176 | The ios output holds each simplified char and each phrase once, and nothing else (as multisets). |
| Forward.LockstepSplitsCode | src/main.rs:131-180 | A concrete pair of ascending streams whose table output is out of order and splits one code over two lines. |
| Forward.MergedAscending | src/main.rs:131-180 | The corrected merge of two ascending streams writes strictly ascending codes, one line per code. |
| Forward.MergedCodes | src/main.rs:131-180 | The corrected merge writes a line for every code of either stream and for no other code. |
| Forward.LockstepMergesAligned | src/main.rs:131-180 | When the two streams carry the same codes round for round, the loop as written equals the corrected merge. |
| Reverse.EmitReverse | src/main.rs:189-230 | The loop writes exactly `ReverseTable`, round by round, advancing both streams until both are exhausted. |
| Reverse.CompareEqual | src/main.rs:203 | String comparison says `Equal` iff the two strings are the same. |
| Reverse.CompareFlip | src/main.rs:203 | `a < b` iff `b > a`. |
| Reverse.LessTransitive | src/main.rs:203 | String `Less` is transitive. |
| Reverse.JoinedIffSameKey | src/main.rs:202-226 | A round with both entries writes one line iff `ch.to_string() == phrase`, and that line is `ch c1 … ck full_code`. Otherwise the smaller key's line comes first. |
| Reverse.SimplifiedAlone | src/main.rs:195-201 | A simplified stream on its own is written line for line, unchanged. |
| Reverse.FullAlone | src/main.rs:192-194 | A full stream on its own is written line for line, unchanged. |
| Reverse.ReverseLineCount | src/main.rs:189-230 | The output has one line per entry, less one for each round whose keys are equal. |
| Reverse.ReversePairsKept | src/main.rs:189-230 | Every (key, code) pair of either stream is written exactly once, and no other pair is written. |
| Reverse.LockstepOutOfOrder | src/main.rs:189-230 | A concrete pair of ascending streams whose reverse output is out of order. |
| Reverse.MergedAscending | src/main.rs:189-230 | The corrected merge of two ascending streams writes strictly ascending keys. |
| Reverse.MergedKeys | src/main.rs:189-230 | The corrected merge writes a line for every key of either stream and for no other key. |

## Left out

- File I/O (`get_lines`, the readers and writers, `write!` unwraps, `println!` logging) is not modelled. The emission loops return their output lines as structured values, not formatted text.
- The loader loops of `main` (src/main.rs:82-122) are not modelled. They only sequence file reads and panic through `unwrap`, `assert!` and `todo!`.
- The emission streams (`Table`, `simplified_table`, `filtered_full_table` and the reverse iterators) are not part of this model. `WubiCode`, `SimplifiedCodeTable`, `FullCodeTable` and `get_code_for_phrase` are not part of it either. The loops take their inputs as arbitrary sequences, and no splicing or overlap-filter rule is assumed.
- The emission loops of `main` compare and print the unsuffixed `WubiCode`, whose definition and `Ord` are not part of this model. The emission model uses `WubiCode2`'s index order (`Code.WubiCode`, shortlex) in its place, and `Display` of a code is not modelled.
- `From<WubiCode2> for Vec<u8>` (src/table.rs:42-47) is `todo!()` in the source, so there is no decoder to model. Only the injectivity it would rely on is proved.
- `shrink_to_fit` and `reserve_exact(3)` (src/table.rs:97-99, 110-114) only affect capacity.
- Tables.FullCodeTable.Phrases: the source hands out a `&mut Vec` to the list. The model reads the list, and the only mutation through that reference, `push`, is `AddPhrase`.
- LineParse.ParseLineWithCodepoint: `cnt` is an unbounded count. The `usize` overflow that the source's TODO mentions cannot occur for any line that fits in memory.
- Hex parsing follows `u32::from_str_radix(_, 16)` for ASCII input:
  - an empty digit string is an error;
  - one leading `+` is allowed;
  - a non-hex char is an error before an overflow past `u32::MAX` is;
  - the `ParseIntError` is kept only as its kind.
- `WubiEntry` in the source holds a `WubiCode`, which is not part of this model. The model stores the `WubiCode2` encoder's result there, and the same `try_into` error cases apply.
- Reverse.CompareStrings compares strings char by char on scalar values. The source compares UTF-8 bytes, and the two orders agree for valid UTF-8.

## Findings

| source | as written | input that shows it | evidently intended | confidence | as-written member | corrected member |
|---|---|---|---|---|---|---|
| src/main.rs:131-180 | Every round calls `next()` on both streams and writes both items when their codes differ. | simplified `[(a, X), (b, Y)]`, full `[(b, [Z])]` gives lines `a X`, `b Z`, `b Y`: code `b` is split over two lines. | A two-way merge that advances only the stream with the smaller code, so the table is strictly ascending with one line per code. | medium; the streams' producers are not part of this model; not executed | Forward.LockstepSplitsCode | Forward.MergedAscending |
| src/main.rs:189-230 | Every round calls `next()` on both streams and writes both entries when their keys differ. | simplified `[(X, [a]), (Y, [b])]`, full `[("Z", c)]` gives keys `X`, `Z`, `Y`, out of order. | A two-way merge by key, so the reverse table is in ascending key order. | medium; the streams' producers are not part of this model; not executed | Reverse.LockstepOutOfOrder | Reverse.MergedAscending |
