# cantordenomes in Dafny

`cantordenomes` is a command-line tool. It stores people's names compactly, using a
lexicon of common names: the first field of each row of a CSV file.

Encoding a name (`Cantar`) works in three steps:

1. Trim the name and split it on single spaces.
2. Replace every word found in the lexicon, ignoring case, by its row index. This
   step (`SubstituirNomesPorIndices`) splits the words into chunks, one per worker.
   A worker stops at the first word of its chunk that it finds. The words it never
   reaches stay empty.
3. Fold the list (`ProcessarPalavras`):
   - Two int64 tokens in a row become their Cantor pairing code, `T(x+y) + y`, where
     `T(n) = n(n+1)/2`. The code is computed in wrapping int64 arithmetic.
   - A lone int64 token that is a lexicon index becomes that lexicon word. Any other
     lone int64 token disappears.
   - Every other token passes through unchanged.

Decoding (`Decantar`) goes the other way:

- Every numeric token must be a decimal integer. Any other numeric token, such as
  "1.5", "inf" or "1e5", fails with a conversion error. The integer is read
  unbounded and un-paired with the integer square root. Its two halves are then
  truncated to int64 and looked up in the lexicon.
- Words that are not numeric pass through.
- The result is joined with single spaces.
- The first failing token ends the decoding. Some inputs stop the program instead:
  the square root of a negative number, or a negative lexicon index.

The command line stores one record per CSV row:

- The key is the third field.
- The value is `encoded name|second field|date without dashes`.

Reading a record splits the value on `|`, splits the first field on spaces and
decodes those tokens. A non-panic decoding error is dropped, and the name is then
shown as empty.

The model is organised as follows:

- `Wrappers`: the `Option` and `Result` types.
- `Text`: the ASCII `strings` operations.
- `Numbers`: int64 wrap-around, decimal formatting and parsing, and the `IsNumeric`
  recogniser.
- `Cantor`: the pairing function, its int64 version and the square-root inverse.
- `Resolver`: the chunked lookup, with an array filled in place by each worker.
- `Pipeline`: the fold, the decoder and `Cantar`.
- `RoundTrip`: the properties that span encoding and decoding.
- `Records`: the stored record.

Every Go panic in the modelled code becomes an explicit failure value.

## Model

| member | source | states |
|---|---|---|
| `Numbers.Wrap64` | cantordenomes/cantenomes.go:41-42 | int64 truncation: the result is an int64, congruent to the input modulo 2^64, and equal to it when it already fits |
| `Numbers.TruncDiv2` | cantordenomes/cantenomes.go:190 | Go's `/ 2`, rounding toward zero for negative and positive operands alike |
| `Numbers.Digits` | cantordenomes/cantenomes.go:147 | the decimal digits of a natural number: non-empty, all digits, no leading zero, and their value is the number |
| `Numbers.FormatInt` | cantordenomes/cantenomes.go:147 | `strconv.FormatInt(v, 10)`: non-empty, only digits and `-`, all digits exactly when `v >= 0` |
| `Numbers.ParseDecimal` | cantordenomes/cantenomes.go:36-39 | `big.Int.SetString(s, 10)`: every text it accepts is also numeric |
| `Numbers.ParseInt64` | cantordenomes/cantenomes.go:138-140 | `strconv.ParseInt(s, 10, 64)`: accepts exactly the decimal integers in the int64 range, with the same value, and on a canonical spelling (no `+`, no leading zero, no `-0`) it round-trips with `FormatInt` |
| `Numbers.FormatParse` | cantordenomes/cantenomes.go:138-147 | a canonical decimal spelling parses to a value whose decimal form is that spelling |
| `Numbers.ParseFormat` | cantordenomes/cantenomes.go:138-147 | parsing a formatted integer gives it back; for int64 values this also holds for the int64 parser |
| `Numbers.DigitsAreNumeric` | cantordenomes/cantenomes.go:223-229 | a string of decimal digits is numeric |
| `Numbers.NaNIsNotNumeric` | cantordenomes/cantenomes.go:224-228 | "NaN" parses as a float but is rejected because it is not a number |
| `Numbers.NumericHasDigit` | cantordenomes/cantenomes.go:223-229 | `IsNumeric`: a numeric word is not empty, and it holds a decimal digit unless it spells infinity |
| `Cantor.TriangleDouble` | cantordenomes/cantenomes.go:190 | `2*T(n) == n*(n+1)` |
| `Cantor.TriangleMonotonic` | cantordenomes/cantenomes.go:190 | triangle numbers never decrease with their index, and grow strictly when the index grows |
| `Cantor.TriangleBandUnique` | cantordenomes/cantenomes.go:196 | a number lies between `T(w)` and `T(w+1)` for only one `w` |
| `Cantor.CantorPair` | cantordenomes/cantenomes.go:188-193 | the int64 pairing with every operation wrapping: its result is always an int64 |
| `Cantor.CantorPairAgrees` | cantordenomes/cantenomes.go:188-193 | when `(x+y)*(x+y+1)` fits in int64, the int64 pairing equals `T(x+y) + y` |
| `Cantor.ISqrt` | cantordenomes/cantenomes.go:207 | `big.Int.Sqrt`: the floor square root, `r*r <= n < (r+1)*(r+1)` |
| `Cantor.TriangleOddSquare` | cantordenomes/cantenomes.go:196 | `8*T(w) + 1 == (2w+1)^2` |
| `Cantor.InverseBand` | cantordenomes/cantenomes.go:205-209 | `w = (isqrt(8z+1) - 1) / 2` is the triangle band of `z`: `T(w) <= z < T(w+1)` |
| `Cantor.TriangleFormula` | cantordenomes/cantenomes.go:211-213 | `(w*w + w) / 2` is `T(w)` |
| `Cantor.CantorPairInverse` | cantordenomes/cantenomes.go:195-219 | for `z >= 0` both components are non-negative and pairing them gives `z` back |
| `Cantor.PairInjective` | cantordenomes/cantenomes.go:188-193 | distinct pairs of naturals get distinct codes |
| `Cantor.InversePair` | cantordenomes/cantenomes.go:188-219 | un-pairing the code of `(x, y)` gives `(x, y)` |
| `Cantor.PairSurjective` | cantordenomes/cantenomes.go:195-219 | every natural is the code of some pair |
| `Cantor.PairExamples` | cantordenomes/cantenomes.go:188-193 | `(1,0)` has code 1, `(0,1)` has code 2, `(2,3)` has code 18 |
| `Cantor.InverseExample` | cantordenomes/cantenomes.go:195-219 | 18 un-pairs to `(2, 3)` |
| `Text.EqualFold` | cantordenomes/cantenomes.go:98 | `strings.EqualFold`: two words are equal ignoring case exactly when their lower-case forms are equal |
| `Text.TrimSpace` | cantordenomes/cantenomes.go:169 | `strings.TrimSpace`: the result is the middle slice of the text after its leading white space, everything cut on either side is white space, and the result neither starts nor ends with white space; text without white space is unchanged |
| `Text.Split` | cantordenomes/cantenomes.go:169 | `strings.Split` on one character: at least one piece, no piece holds the separator |
| `Text.SplitJoin` | cmd/main.go:106-107 | splitting the join of a non-empty, separator-free list gives the list back, empty pieces included |
| `Text.JoinSplit` | cmd/main.go:106-107 | joining the pieces of a split gives the text back |
| `Text.Join` | cantordenomes/cantenomes.go:56 | `strings.Join`: the result starts with the first piece, and with two or more pieces the separator follows it |
| `Text.JoinAvoids` | cmd/main.go:236 | joining pieces that avoid a character, with a different separator, gives text that avoids it |
| `Text.RemoveAll` | cmd/main.go:235 | `strings.Replace(s, c, "", -1)`: `c` is gone and every other character keeps its count |
| `Text.RemoveAllConcat` | cmd/main.go:235 | removal works piece by piece, so the surviving characters keep their order |
| `Resolver.FirstMatch` | cantordenomes/cantenomes.go:97-102 | the first lexicon index whose word equals the word ignoring case, or none when no index matches |
| `Resolver.FindInLexicon` | cantordenomes/cantenomes.go:97-103 | the worker's scan of the lexicon: the first case-insensitive match, or -1 exactly when there is none |
| `Resolver.ChunkSize` | cantordenomes/cantenomes.go:107 | the chunk size is the word count divided by the worker count, rounded up: that many words per worker cover every word, one fewer does not, and an empty list gives 0 |
| `Resolver.ChunkOf` | cantordenomes/cantenomes.go:108-115 | a word at position `j` belongs to chunk `j / chunkSize` |
| `Resolver.Worker` | cantordenomes/cantenomes.go:93-105 | a worker writes only inside its chunk. Before its first hit each word gets its index or itself; after the hit the words keep their old value |
| `Resolver.SubstituirNomesPorIndices` | cantordenomes/cantenomes.go:88-132 | each position holds its index or the word itself, unless an earlier word in the same chunk was found, in which case it stays empty |
| `Resolver.ResolveOneWordPerChunk` | cantordenomes/cantenomes.go:93-115 | with at least as many workers as words, every word is looked up on its own |
| `Resolver.CaseInsensitiveExample` | cantordenomes/cantenomes.go:98 | "JOSE" resolves to index 1 in the lexicon `["Bia", "Jose"]` |
| `Resolver.FirstHitStopsWorkerExample` | cantordenomes/cantenomes.go:99-100 | with two workers, `["Ana", "Bia", "Eva"]` resolves to `["0", "", "2"]` against itself |
| `Pipeline.FoldTokens` | cantordenomes/cantenomes.go:142-162 | the fold never lengthens the list |
| `Pipeline.FoldPairAt` | cantordenomes/cantenomes.go:143-151 | two int64 tokens at `i` fold into the decimal code of their int64 pairing, and the fold continues at `i+2` |
| `Pipeline.FoldLoneAt` | cantordenomes/cantenomes.go:153-161 | a token at `i` that has no int64 partner contributes its lone-token result, and the fold continues at `i+1` |
| `Pipeline.ProcessarPalavras` | cantordenomes/cantenomes.go:135-164 | the loop's output is the fold of its input |
| `Pipeline.DecodeToken` | cantordenomes/cantenomes.go:35-53 | a token that decodes yields one word (a non-numeric token) or two (a code) |
| `Pipeline.DecodeWords` | cantordenomes/cantenomes.go:34-54 | a successful decoding has between one and two words per token |
| `Pipeline.Decantar` | cantordenomes/cantenomes.go:16-57 | the loop's outcome is the decoding of the whole list: the joined words, or the first failure |
| `Pipeline.NameWords` | cantordenomes/cantenomes.go:169 | the words of a name: at least one, none holds a space, and joined by single spaces they give the trimmed name |
| `Pipeline.Cantar` | cantordenomes/cantenomes.go:168-186 | encoding trims and splits the name, resolves it chunk by chunk and folds the result |
| `RoundTrip.DecodeFailsAtFirstBadToken` | cantordenomes/cantenomes.go:34-54 | decoding fails with the error of the first token that fails |
| `RoundTrip.DecodeSucceedsIffEveryToken` | cantordenomes/cantenomes.go:34-56 | decoding succeeds if and only if every token decodes on its own |
| `RoundTrip.DecodeWord` | cantordenomes/cantenomes.go:50-53 | a non-numeric token decodes to itself |
| `RoundTrip.DecodePassesWordsThrough` | cantordenomes/cantenomes.go:50-56 | a list with no numeric token decodes to itself |
| `RoundTrip.DecodeCode` | cantordenomes/cantenomes.go:36-46 | a code whose two halves are lexicon indices decodes to those two words, in order |
| `RoundTrip.DecodeCodeOutOfRange` | cantordenomes/cantenomes.go:45-49 | a code whose halves fit in int64, one of them at or above the lexicon size, fails with the index error |
| `RoundTrip.DecodeConversionFailure` | cantordenomes/cantenomes.go:35-39 | a numeric token that is not a decimal integer (such as "1.5") fails with the conversion error for that token |
| `RoundTrip.DecodeNegativeCode` | cantordenomes/cantenomes.go:36-40 | a negative integer code reaches `cantorPairInverse`, whose square root of a negative number panics |
| `RoundTrip.DecodeWrappedIndex` | cantordenomes/cantenomes.go:41-46 | a half of 2^64 or more is truncated by `Int64()` before the bound test: one whose low 64 bits are 0 passes as index 0, and the token decodes to the first lexicon word twice with no error |
| `RoundTrip.DecodeNegativeIndex` | cantordenomes/cantenomes.go:41-46 | a code whose truncated halves pass the upper-bound test but one is negative panics when it indexes the lexicon |
| `RoundTrip.FoldPassesWordsThrough` | cantordenomes/cantenomes.go:158-160 | a list with no int64 token comes out of the fold unchanged |
| `RoundTrip.IndicesFold` | cantordenomes/cantenomes.go:146-147 | two indices of a lexicon with fewer than about 1.5e9 rows pair without overflow, and the code parses back and un-pairs to them |
| `RoundTrip.FoldThenDecode` | cantordenomes/cantenomes.go:135-164 | folding the looked-up words and decoding the result gives each word in its lexicon spelling |
| `RoundTrip.EncodeDecodeRoundTrip` | cantordenomes/cantenomes.go:168-186 | decoding an encoded name gives its words in their lexicon spelling, joined by single spaces. Conditions: at least as many workers as words, a small lexicon with no numeric word, and no numeric word outside the lexicon |
| `Records.DashedDate` | cmd/main.go:235 | `strings.Replace(nasc, "-", "", -1)` on a date of dash-free parts joined by two dashes gives the parts run together, in order |
| `Records.NormalizeDateExample` | cmd/main.go:235 | "1990-05-17" becomes "19900517" |
| `Records.Record` | cmd/main.go:233-236 | the record is keyed by the third field; a row with fewer than four fields fails |
| `Records.BuildRecord` | cmd/main.go:233-236 | the worker's step builds exactly that key and stored value |
| `Records.DecantarRecord` | cmd/main.go:106-113 | reading a value keeps the stored text. It fails exactly when decoding panics or there are fewer than three fields |
| `Records.StoredValue` | cmd/main.go:236 | when no token, nor the second field, nor the date contains `|`, the stored value splits on `|` into exactly the tokens joined by spaces, the second field and the date without dashes |
| `Records.DecantarStored` | cmd/main.go:106-113 | reading back a stored value gives the shown name of its tokens, the second field and the normalised date, unless decoding panics; this includes the empty token list `Cantar` gives for a name of lone integers outside the lexicon |
| `Records.EmptyNameReadsBack` | cmd/main.go:106-108 | an empty first field reads back as the single token "", which decodes to the same empty name as no tokens at all |
| `Records.DecodeErrorShowsEmptyName` | cmd/main.go:108-111 | a decoding error that is not a panic is dropped and the name is shown empty |
| `Records.RecordRoundTrip` | cmd/main.go:233-236 | a row stored and read back shows its name in lexicon spelling, its second field and its date without dashes |

## Left out

- Command line, storage and output: flag parsing, BadgerDB, JSON printing, progress
  bars and time estimates are I/O and foreign libraries.
- CSV loading: `AbrirArquivoCSV`, `LerLinhasCSV`, `getLineCount`, and the error paths
  of `Cantar` and `Decantar` when the file cannot be read. The lexicon is a
  parameter: the first field of every row.
- Concurrency: the goroutines, channels and wait groups of the resolver and of the
  loader, and the unsynchronised record counter. Workers write disjoint chunks, so
  the resolver is modelled as a sequence of workers.
- `runtime.NumCPU()` becomes the `numWorkers` parameter. `Cantar`'s `cpf` argument is
  never used by the code.
- Text.TrimSpace: ASCII white space only; Unicode white space is not modelled.
- Resolver.FirstMatch: compares with ASCII case folding (`Text.EqualFold`); Unicode case folding is not modelled.
- Numbers.ParseDecimal: its contract states only that accepted text is numeric; its body spells out the decimal syntax `SetString` accepts.
- IsNumeric covers an optional sign followed by `inf`/`infinity` (any case) or a
  decimal float. `ParseFloat`'s hexadecimal floats and underscores are not modelled.
  Neither is its range error: a decimal beyond the float64 range, such as "1e400",
  is numeric here but not in Go.
- Pair follows the code's definition, `T(x+y) + y`. So `(1, 0)` has code
  1 and `(0, 1)` has code 2.
- RoundTrip.EncodeDecodeRoundTrip: proved only when each worker gets at most one
  word. With larger chunks the resolver leaves words after a chunk's first hit
  empty, so the name does not come back. `Resolver.FirstHitStopsWorkerExample` shows
  this.
