# bluetape-go, verified core

A Dafny model of the parts of the bluetape-go toolkit whose correctness is not visible from the code:
base conversion and bit-stream codecs, the restartable batch step, wildcard matching, rotation of
shared JWT keys, the JWT reader cache, Geohash cells, UUID version 7, the audit repository and the lazy
permutation generator. `dafny verify dfyconfig.toml` checks everything.

Two kinds of modules appear. Where the program changes buffers, slices or fields step by step, the
model is imperative: methods over arrays and classes, proved against specification functions, whose
laws are then proved as lemmas. Where the program takes part in a protocol with other processes, the
model is a state machine whose steps are its remote calls, with every failure and every interleaving,
an invariant kept by each step, and theorems over whole traces; the program's own loop is then written
as a method that only moves by steps of the machine, with rivals moving between any two of its calls
(`BatchStep`, `RedisClient`, `CachedProvider`). How the calls of the program itself turn out is an input
of these methods, so their results are stated exactly; only rivals are arbitrary. Every specification
function has laws or concrete values of its own that determine it.

| module | component | main results |
|---|---|---|
| `Numerals`, `AlphabetCodec`, `UuidUrl62` | Base58, Base62, compact UUIDs | the in-place division loops compute a bijection that keeps the number denoted and the leading zeros; the output buffer overruns exactly on texts that do not fit, and for no input exactly for alphabets of 56 letters or more; compact UUID texts are accepted exactly when canonical |
| `KsuidMillis` | millisecond KSUIDs | the 5/6-bit code is uniquely decodable for every byte string; cut identifiers keep their millisecond; raw identifiers are ordered by their clock |
| `AtomicBatch`, `BatchOutcomes`, `BatchStep`, `LegacyStep` | batch steps | exactly-once output for every interleaving of runs, failures and unknown commits; an undisturbed run completes, with the full output, exactly when nothing goes wrong; counters and budgets of both run loops; when the older path can lose results |
| `Patterns`, `Wildcard` | wildcard matching | both dynamic programs equal the recursive meaning of the raw pattern, which concatenation and its shortest patterns determine; the parts of paths and patterns are unique; path matching never fails |
| `RedisStore`, `RedisRotation`, `RedisClient` | shared key rotation | every reachable state is consistent and bounded; at most one rotation per observed key; losers return the payload current at their script, which is the winner's or a later one; what a rotation returns is determined by the states its scripts meet |
| `KeyRing`, `ReaderCache`, `CachedProvider` | reader cache | no entry survives a clear it predates, whatever loads are in flight; a caller only gets readers parsed for its own cache key; warm hits are revalidated; a hit returns the entry, and a load that no clear overtakes stores it |
| `Geohash` | Geohash | cells by row and column number, half-open cells partition the world, containment, inverse on centres, prefixes |
| `UuidV7` | UUID version 7 | strictly increasing over every run for every clock |
| `AuditRepository` | audit log | all-or-nothing appends, revisions 1 to n, loadable histories on every run; what queries select, position by position |
| `Permutations` | permutations | each index permutation exactly once, in which order; the work slice is restored, also on early stop |

## Where the code and its documentation disagree

`batch/README.md` lines 73 to 77 call the `Writer` with `CheckpointStore` path an at-least-once path.
The run loop in `batch/step.go` lines 163 to 181 saves the reader's checkpoint after a filtered or
skipped item while kept results may still wait in the chunk, so a restart after a stop at that moment
drops them. The model follows the code (`LegacyStep`). `RunLegacy` ties output and saved checkpoint of the loop, at
every point where it can stop, to the function `LegacyAfter` of the decisions it took.
`LegacyLosesResult` and `UnrecoverableStop` give the failing input for every chunk size from two on, and
`LegacyIsAtLeastOnce` proves that the promise holds exactly for chunk size one or for steps that never
filter or skip; `RecoverableStop` carries that back to what the loop leaves behind.

## Model

| member | source | states |
|---|---|---|
| `AlphabetCodec.NewAlphabetEncoding` | codec/alphabet.go:13-35 | accepts exactly the ASCII alphabets of two or more letters without duplicates, and then the index table inverts the alphabet; each panic has its own cause |
| `AlphabetCodec.DivideDigit` | codec/alphabet.go:114-123 | one division step has a quotient digit below the base, so the cast to a byte loses nothing |
| `AlphabetCodec.LongDivisionMeaning` | codec/alphabet.go:114-123 | the digits left behind and the remainder are quotient and remainder of the number denoted |
| `AlphabetCodec.DivMod` | codec/alphabet.go:114-123 | the in-place loop leaves the long-division digits in the array and touches nothing before `firstDigit` |
| `AlphabetCodec.BytesFit` | codec/alphabet.go:50-51 | k base-56 digits hold m bytes whenever 40m <= 29k |
| `AlphabetCodec.BufferSuffices` | codec/alphabet.go:50-69 | from base 56 on, digits and leading zero letters of every byte string fit `len*138/100+2` |
| `AlphabetCodec.BufferOverflows` | codec/alphabet.go:50-69 | below base 56 strings of 21m maximal bytes (m at least 100) do not fit |
| `AlphabetCodec.BufferSufficesFrom56` | codec/alphabet.go:50-69 | the buffer is long enough for all inputs if and only if the alphabet has 56 letters or more |
| `AlphabetCodec.QuotientLeadingZeros` | codec/alphabet.go:54-61 | one division leaves at most one new leading zero digit, so advancing by one keeps a non-zero digit in front |
| `AlphabetCodec.EncodeStep` | codec/alphabet.go:54-61 | while a digit remains, room remains in the buffer, the number shrinks, and the digits written extend to the result |
| `AlphabetCodec.CountLeadingZeros` | codec/alphabet.go:42-45 | counts exactly the leading zeros |
| `AlphabetCodec.PushLetter` | codec/alphabet.go:56-57 | one more letter in front of those written, the rest of the text untouched |
| `AlphabetCodec.EncodeDigits` | codec/alphabet.go:50-61 | the loop terminates, its letters are the digits of the whole number up to leading zeros, and it runs out of the buffer only when the digits alone do not fit |
| `AlphabetCodec.SkipZeroLetters` | codec/alphabet.go:63-65 | what is left are the significant digits |
| `AlphabetCodec.PrependZeroLetters` | codec/alphabet.go:66-69 | one zero letter per leading zero byte, running out of the buffer exactly when there is no room for them |
| `AlphabetCodec.Encode` | codec/alphabet.go:37-72 | for every alphabet: overruns the buffer exactly when the text does not fit; otherwise the text is over the alphabet, its letter indexes denote the number the bytes denote, and they have as many leading zeros; from 56 letters on it never overruns |
| `AlphabetCodec.EncodedMeaning` | codec/alphabet.go:37-72 | the text denotes the number of the bytes, most significant letter first, with one zero letter per leading zero byte |
| `AlphabetCodec.QuotientLeadsWithZero` | codec/alphabet.go:94-101 | dividing by 256 clears the leading digit, so `inputStart` advances on every pass |
| `AlphabetCodec.ReadLetters` | codec/alphabet.go:79-85 | the index of every letter, or the first foreign byte and its position |
| `AlphabetCodec.DecodeStep` | codec/alphabet.go:94-101 | each pass keeps the number denoted by the rest and the bytes written |
| `AlphabetCodec.DecodeDigits` | codec/alphabet.go:90-105 | the loop writes inside the buffer and ends with the bytes of the number up to leading zeros |
| `AlphabetCodec.Decode` | codec/alphabet.go:74-112 | fails exactly on strings with a foreign byte, naming the first one; otherwise the bytes denote the number the letter indexes denote, with as many leading zeros |
| `AlphabetCodec.DecodedMeaning` | codec/alphabet.go:74-112 | the bytes denote the number of the letters, most significant byte first, with one zero byte per leading zero letter |
| `AlphabetCodec.DecodeInvertsEncode` | codec/alphabet.go:37-112 | decoding the encoding of any byte string returns it |
| `AlphabetCodec.EncodeInvertsDecode` | codec/alphabet.go:37-112 | encoding the decoding of any string over the alphabet returns it |
| `AlphabetCodec.StandardEncodings` | codec/base58.go:3-5 | the Base58 and Base62 alphabets are accepted and have 58 and 62 letters |
| `AlphabetCodec.Base58IsWellFormed` | codec/base58.go:3-5 | the Base58 alphabet is ASCII without duplicates |
| `AlphabetCodec.Base62IsWellFormed` | codec/base62.go:3-5 | the Base62 alphabet is ASCII without duplicates |
| `AlphabetCodec.AlphabetLetters` | codec/base58.go:3-5 | both alphabets, letter by letter |
| `AlphabetCodec.TwoLetters` | codec/base58.go:3-5 | bytes 1 and 0 are the Base58 text 5R |
| `Numerals.RebaseRoundTrip` | codec/alphabet.go:37-112 | changing the base there and back is the identity on every digit string, leading zeros included |
| `Numerals.StripIsDigits` | codec/alphabet.go:103-105 | digits without leading zeros are the canonical digits of their value |
| `UuidUrl62.LengthBound` | codec/url62_uuid.go:12-13 | a 128-bit value has at most 22 Base62 digits |
| `UuidUrl62.EncodedShape` | codec/url62_uuid.go:21-37 | a canonical text is not blank, over the alphabet and has 1 to 22 letters |
| `UuidUrl62.ZeroText` | codec/url62_uuid.go:33-35 | "0" is not blank and decodes to one zero byte, which is why it needs its own rule |
| `UuidUrl62.DecodeInvertsEncodeUuid` | codec/url62_uuid.go:21-70 | every 128-bit value is decoded back from its text, and the text is "0" exactly for zero |
| `UuidUrl62.AcceptsOnlyEncodings` | codec/url62_uuid.go:45-70 | an accepted text is the encoding of what it decodes to, so with the row above exactly the encodings are accepted |
| `UuidUrl62.TextMeaning` | codec/url62_uuid.go:21-37 | the letters of a text denote the 128-bit value, without a zero letter in front except for zero itself |
| `UuidUrl62.Rejections` | codec/url62_uuid.go:45-60 | blank, too long, foreign letter or too many bytes: each error exactly when it is the first that applies |
| `KsuidMillis.BitInput.constructor` | id/ksuid_millis.go:225-229 | starts at bit zero of all bytes |
| `KsuidMillis.BitInput.SeekBit` | id/ksuid_millis.go:235-237 | moves by the given number of bits |
| `KsuidMillis.BitInput.ReadBits` | id/ksuid_millis.go:239-252 | the masks and shifts across a byte boundary return the next bits of the stream, zero past its end |
| `KsuidMillis.BitOutput.constructor` | id/ksuid_millis.go:254-261 | starts clear with room for the capacity |
| `KsuidMillis.BitOutput.WriteBits` | id/ksuid_millis.go:278-293 | appends the low bits to the stream, keeps every bit before and leaves the rest clear |
| `KsuidMillis.BitOutput.ToArray` | id/ksuid_millis.go:295-303 | returns the written bits as whole bytes |
| `KsuidMillis.BytesDetermine` | id/ksuid_millis.go:225-303 | bytes are determined by their length and their stream bits |
| `KsuidMillis.LetterRoundTrip` | id/ksuid_millis.go:149-223 | the two letter tables are inverse on 0 to 61 |
| `KsuidMillis.LetterTable` | id/ksuid_millis.go:149-155 | the table is three runs of consecutive characters from A, a and 0 on |
| `KsuidMillis.WrittenInvertsSymbols` | id/ksuid_millis.go:157-210 | the code is uniquely decodable: reading the symbols back restores every bit sequence of whole bytes, padded last symbols and compact last symbols included |
| `KsuidMillis.WrittenPrefix` | id/ksuid_millis.go:166-210 | cut after m symbols, at least the first 5(m-1) bits are restored |
| `KsuidMillis.SymbolCount` | id/ksuid_millis.go:162-178 | the number of symbols lies between a sixth and a fifth of the bits |
| `KsuidMillis.EncodePrefix` | id/ksuid_millis.go:166-178 | the loop over the bit reader produces the symbols of the bit sequence, cut at the limit |
| `KsuidMillis.OneByte` | id/ksuid_millis.go:166-178 | the texts of byte 1 and of byte 255, whose first symbol is compact |
| `KsuidMillis.RoomLeft` | id/ksuid_millis.go:188-202 | six bits of buffer per letter are enough for every write |
| `KsuidMillis.DecodeText` | id/ksuid_millis.go:180-210 | succeeds exactly on texts over the alphabet with a length that is not negative, returns the written bits cut or padded to it, and names the first foreign letter otherwise |
| `KsuidMillis.CodeRoundTrip` | id/ksuid_millis.go:157-210 | every byte string is the one and only decoding of its whole encoding |
| `KsuidMillis.BigEndianRoundTrip` | id/ksuid_millis.go:88-89 | the timestamp bytes hold all 64 bits |
| `KsuidMillis.BigEndianInverse` | id/ksuid_millis.go:133-133 | eight bytes to number to bytes is the identity |
| `KsuidMillis.BigEndianShift` | id/ksuid_millis.go:88-89 | the last byte is the lowest, and without it the bytes are those of the shifted number |
| `KsuidMillis.BigEndianOrder` | id/ksuid_millis.go:88-89 | the bytes of a smaller number are lexicographically smaller |
| `KsuidMillis.RawLayout` | id/ksuid_millis.go:88-92 | milliseconds since the epoch in the first eight bytes, the payload in the other twelve |
| `KsuidMillis.RawOrder` | id/ksuid_millis.go:88-92 | a later clock makes lexicographically greater raw bytes, whatever the payloads are |
| `KsuidMillis.NextString` | id/ksuid_millis.go:77-96 | fails exactly when the entropy source does, else returns the 27-letter cut of the raw bytes, whose layout and order are the two rows above |
| `KsuidMillis.DecodeKsuid` | id/ksuid_millis.go:137-142 | accepts exactly 27 letters of the alphabet |
| `KsuidMillis.KsuidTime` | id/ksuid_millis.go:128-135 | accepts the same texts, and for every generated identifier returns the millisecond it was generated at |
| `KsuidMillis.CutEncoding` | id/ksuid_millis.go:166-210 | twenty bytes give at least 27 symbols, which hold at least the first 128 bits |
| `KsuidMillis.GeneratedIdentifier` | id/ksuid_millis.go:77-142 | a generated identifier has 27 letters, parses, and decodes to the same first 16 bytes and the same millisecond |
| `AtomicBatch.KeptOfConcat` | batch/atomic_step.go:83-97 | the kept results of a concatenation are those of its parts |
| `AtomicBatch.AppliedKeepsStore` | batch/atomic.go:15-24 | a commit under its expected version extends output and checkpoint together |
| `AtomicBatch.OthersKeepRun` | batch/atomic.go:15-24 | what a run knows survives every commit of another run |
| `AtomicBatch.StartKeepsRun` | batch/atomic_step.go:44-56 | loading and restoring put the run exactly at a committed checkpoint |
| `AtomicBatch.ReadKeepsRun` | batch/atomic_step.go:66-84 | one read adds one item in progress; the end of the input means commit, or completion with everything committed |
| `AtomicBatch.RetryKeepsRun` | batch/step.go:225-228 | a retry stays within the attempts and changes nothing else |
| `AtomicBatch.StopKeepsRun` | batch/atomic_step.go:61-104 | stopping anywhere, also with a commit of unknown outcome, keeps what is known of the run |
| `AtomicBatch.DecisionKeepsRun` | batch/atomic_step.go:83-97 | keeping, filtering or skipping an item accounts for it once and stays in the skip budget |
| `AtomicBatch.CommitKeepsRun` | batch/atomic_step.go:99-138 | after a commit the run stands exactly at the new checkpoint |
| `AtomicBatch.StepKeepsInv` | batch/atomic_step.go:9-138 | each call of each run keeps the invariant, however the call turns out |
| `AtomicBatch.TraceKeepsInv` | batch/atomic_step.go:9-138 | the invariant holds after every interleaving |
| `AtomicBatch.ExactlyOnce` | batch/atomic_step.go:44-138 | for every interleaving of any number of runs the output is exactly the kept results of the input up to the checkpoint, each position decided once; a completed run leaves the checkpoint at the end and accounts for every item; budgets hold |
| `AtomicBatch.OutputOfFunction` | batch/atomic_step.go:44-138 | if processing is a function, the output is that function's kept results on the prefix, and on the whole input after completion |
| `AtomicBatch.CommittedWorkStays` | batch/atomic.go:15-24 | committed output and decisions are only ever extended |
| `BatchOutcomes.Retries` | batch/policy.go:65-70 | the number of retries: every attempt before the last fails and may be retried, the last is not, and there are at most `MaxAttempts` |
| `BatchOutcomes.RetriesAre` | batch/policy.go:65-70 | no other number of retries has that property |
| `BatchOutcomes.DecisionMeaning` | batch/step.go:215-230 | an item is decided by its first attempt that is not retried: kept, filtered, skipped if the error is not one of the context and may be skipped, and otherwise not decided |
| `BatchOutcomes.CountsAddUp` | batch/step.go:139-190 | every decision is counted as kept, filtered or skipped, once |
| `BatchOutcomes.PlainItem` | batch/step.go:215-230 | an item whose first attempt succeeds is kept or filtered without a retry |
| `BatchStep.World.constructor` | batch/atomic_step.go:9-10 | the shared store starts without runs or output |
| `BatchStep.World.Do` | batch/atomic_step.go:9-138 | a call extends the trace by one enabled event |
| `BatchStep.World.Others` | batch/atomic_step.go:58-109 | whatever rivals do, this run's own variables stay as they are |
| `BatchStep.RunAtomic` | batch/atomic_step.go:9-35 | every call is a step of the machine, whatever rivals do; completion means nothing went wrong, the counters are those of the decisions and the checkpoint is at the end. A run that was not overtaken completes exactly when no call goes wrong and closing succeeds, and the output has grown by exactly the results kept up to the checkpoint |
| `BatchStep.LoopAtomic` | batch/atomic_step.go:58-109 | the same for the loop before closing; where it starts is the checkpoint in the store at its load |
| `BatchStep.StartAtomic` | batch/atomic_step.go:27-56 | starts exactly when opening, loading and, for a stored checkpoint, restoring succeed; then at the checkpoint and under the version in the store at its load, or at zero under version zero; otherwise the status is that of the first failure |
| `BatchStep.RestoreReader` | batch/atomic_step.go:50-56 | the reader stands at the stored checkpoint under its version exactly if restoring succeeds |
| `BatchStep.ReadItem` | batch/atomic_step.go:61-84 | succeeds exactly if the context is alive and the read succeeds; then one read advances position and counters, or finds the end |
| `BatchStep.HandleItem` | batch/atomic_step.go:83-99 | decided exactly as the outcomes of its attempts say and, for a skip, if the budget allows it; exactly the decision and its retries are counted and exactly its result is pending; a chunk is committed when it is full; otherwise the status is that of the last failure |
| `BatchStep.Process` | batch/step.go:215-230 | ends with the first attempt that is not retried, and counts exactly the retries before it |
| `BatchStep.CommitAtomic` | batch/atomic_step.go:111-138 | commits exactly if the writer accepts and the version still is the expected one; then output and checkpoint change together and nothing is pending; otherwise the store stays as it was met and the status tells the failure |
| `BatchStep.LastCommitMeaning` | batch/atomic_step.go:99-104 | commits lie a multiple of the chunk size after the start, and fewer items than that wait |
| `BatchStep.CommitChunk` | batch/atomic_step.go:99-104 | a full chunk is committed and the loop goes on at the new checkpoint, or the run ends |
| `BatchStep.Pass` | batch/atomic_step.go:59-109 | one pass of the loop keeps position, counters, pending results and store as the outcomes so far say |
| `BatchStep.EndRun` | batch/atomic_step.go:71-81 | at the end of the input the rest is committed, and the run completes exactly if that is accepted |
| `BatchStep.SmoothOutput` | batch/atomic_step.go:58-138 | a run in which nothing goes wrong and that was not overtaken writes exactly the kept results of all positions from its start, and counts them |
| `BatchStep.PlainRunIsSmooth` | batch/atomic_step.go:58-138 | if every call succeeds at its first attempt nothing goes wrong, and each position is kept or filtered as its attempt says |
| `LegacyStep.Attempts` | batch/step.go:232-246 | ends with the first attempt that is not retried, and counts exactly the retries before it |
| `LegacyStep.Flush` | batch/step.go:194-213 | an empty chunk changes nothing; a cancelled one is not written; otherwise it is written whole exactly if the last attempt succeeds, and the checkpoint then moves exactly if it is saved; a failed chunk is skipped whole exactly without a checkpoint store, if the error may be skipped and within the budget |
| `LegacyStep.SaveCheckpoint` | batch/step.go:263-276 | fails exactly if there is a store and it fails; the saved position changes exactly on a save of a reported position |
| `LegacyStep.RunLegacy` | batch/step.go:101-192 | completes exactly when nothing goes wrong, as far as there is a store, and then everything kept is written and counted; counters never exceed the items read and add up on completion; the skip budget holds; with a store, output and checkpoint at a stop between two items are exactly those of `LegacyAfter`, and in the middle of an item the output may be one whole chunk ahead of the checkpoint |
| `LegacyStep.HandleLegacy` | batch/step.go:159-190 | one item is skipped, filtered, kept or written with its chunk exactly as the outcomes of its attempts, its write and its save say; a failure leaves the checkpoint and writes the whole chunk or nothing |
| `LegacyStep.Discard` | batch/step.go:163-181 | a filtered or skipped item is counted, and goes through exactly if the checkpoint is saved |
| `LegacyStep.Keep` | batch/step.go:183-190 | a kept item joins the chunk, and a full chunk is written |
| `LegacyStep.EndLegacy` | batch/step.go:151-158 | at the end of the input the rest is written, and the run completes if nothing goes wrong |
| `LegacyStep.PlainRunIsSmooth` | batch/step.go:101-192 | if every call succeeds at its first attempt nothing goes wrong |
| `LegacyStep.LegacyAccounts` | batch/step.go:139-190 | written and waiting results together are all kept results, whole chunks were written, and an empty chunk means the checkpoint is up to date if the reader always reports one |
| `LegacyStep.LegacyLosesResult` | batch/step.go:163-181 | for every chunk size from two on: a kept item followed by a filtered one leaves a checkpoint past a result that was never written |
| `LegacyStep.UnrecoverableStop` | batch/step.go:163-181 | a run that stops there, as `RunLegacy` describes it, has nothing written and a checkpoint past both items |
| `LegacyStep.RecoverableStop` | batch/step.go:248-276 | whatever `RunLegacy` leaves behind can be restarted from without loss whenever its decisions lose nothing |
| `LegacyStep.KeepingLosesNothing` | batch/step.go:183-190 | a run that neither filters nor skips loses nothing, for every chunk size |
| `LegacyStep.LegacyIsAtLeastOnce` | batch/README.md:73-77 | no run can lose a result on restart if and only if the chunk size is one or nothing is ever filtered or skipped |
| `Patterns.BackStar` | core/wildcard.go:124-128 | a trailing star matches any suffix |
| `Patterns.FrontStar` | core/wildcard.go:106-109 | a leading star matches any prefix |
| `Patterns.JoinedIsBack` | core/wildcard.go:117-141 | moving pattern elements across a cut of the value changes nothing |
| `Patterns.BackIsFront` | core/wildcard.go:117-141 | reading a pattern from the back, as the rows do, means the same as reading it from the front |
| `Patterns.FrontConcat` | core/wildcard.go:117-141 | a pattern of two parts matches what can be cut into a match of each |
| `Patterns.FrontSingle` | core/wildcard.go:121-139 | a star alone matches everything, any other element alone one element it accepts |
| `Wildcard.TokensMeanPattern` | core/wildcard.go:93-115 | the tokens mean what the raw pattern means |
| `Wildcard.CollapseKeepsMeaning` | core/wildcard.go:106-109 | dropping a star after a star keeps the meaning |
| `Wildcard.ParsePattern` | core/wildcard.go:93-115 | fails exactly on a trailing escape, else returns the collapsed tokens |
| `Wildcard.NextRow` | core/wildcard.go:121-139 | the next row holds the matches of one more token with every prefix of the value |
| `Wildcard.MatchTokens` | core/wildcard.go:117-141 | the rolling row computes the meaning of the tokens |
| `Wildcard.CollapsedTokensMeanPattern` | core/wildcard.go:93-141 | collapsed tokens read from the back mean the raw pattern |
| `Wildcard.MatchWildcard` | core/wildcard.go:32-38 | equals the recursive meaning of the raw pattern for all patterns and values; the only error is a trailing escape |
| `Wildcard.MatchesConcat` | core/wildcard.go:32-38 | two well-formed patterns in a row match what can be cut into a match of each |
| `Wildcard.MatchesSingle` | core/wildcard.go:93-115 | the shortest patterns: a question mark is one character, a star any number, an escaped or plain character itself, a lone escape is malformed |
| `Wildcard.FirstWildcardMatch` | core/wildcard.go:47-58 | returns the first matching pattern, or the first malformed one before any match as an error |
| `Wildcard.SplitPath` | core/wildcard.go:143-154 | parts are not empty and hold no separator |
| `Wildcard.SplitPathMeaning` | core/wildcard.go:143-154 | the path is its parts with separators around them, at least one between two parts, so nothing is missing and no part can be longer |
| `Wildcard.SplitPathIsUnique` | core/wildcard.go:143-154 | no other separator-free parts have that property |
| `Wildcard.RunIsWellFormed` | core/wildcard.go:156-186 | a part of a pattern ends only where its escapes are complete |
| `Wildcard.SplitPatternIsWellFormed` | core/wildcard.go:156-186 | every part of every pattern is well formed and not empty |
| `Wildcard.SplitPatternMeaning` | core/wildcard.go:156-186 | the pattern is its parts with separators around them, at least one between two parts; no part holds a slash, an escape in a part stands before `*`, `?` or an escape, and an escape that separates does not |
| `Wildcard.SplitPatternIsUnique` | core/wildcard.go:156-186 | no other parts have that property |
| `Wildcard.SplitPatternPath` | core/wildcard.go:156-186 | the loop returns the parts of the pattern in the sense of the two rows above |
| `Wildcard.PathCellMeaning` | core/wildcard.go:195-211 | each cell of the table is the meaning of a pattern prefix on a path prefix |
| `Wildcard.FillRow` | core/wildcard.go:195-211 | fills one row of the table, failing exactly on a malformed segment, and leaves later rows alone |
| `Wildcard.MatchPathSegments` | core/wildcard.go:188-214 | the table computes the recursive meaning in which `**` matches any number of segments |
| `Wildcard.SegmentMeaning` | core/wildcard.go:195-211 | a segment `**` matches any number of parts, any other segment one part that it matches |
| `Wildcard.MatchWildcardPath` | core/wildcard.go:67-71 | never returns an error, and equals that meaning on whatever parts the pattern and the path are made of in the sense above |
| `RedisStore.NewestFirst` | jwt/redis_scripts.go:45-45 | lists every member of the sorted set once, by falling score and, on equal scores, by falling id |
| `RedisStore.FillKeep` | jwt/redis_scripts.go:42-51 | the `keep` table is the candidate and `capacity-1` others; every id left out has a lower score than every other id kept, or the same score and a lower id |
| `RedisStore.TrimScores` | jwt/redis_scripts.go:40-59 | what a trim drops has a lower score than what it keeps, or the same score and a lower id, the candidate aside; and how many it keeps |
| `RedisStore.KeepNext` | jwt/redis_scripts.go:46-51 | taking the next newest id keeps every kept id newer than every dropped one |
| `RedisStore.Server.constructor` | jwt/redis_scripts.go:3-15 | starts without keys |
| `RedisStore.Server.Trim` | jwt/redis_scripts.go:40-59 | keeps the candidate and, by score and id, exactly the highest others up to the capacity, with payloads and scores as they were, the same in hash and sorted set |
| `RedisStore.Server.RemoveStale` | jwt/redis_scripts.go:52-58 | removes exactly the ids outside `keep` from both collections |
| `RedisStore.Server.StoreScript` | jwt/redis_scripts.go:76-124 | the candidate becomes current with its payload; the others stay as they were, except that those with the lowest scores go beyond the capacity; the state stays consistent |
| `RedisStore.Server.RotateCasScript` | jwt/redis_scripts.go:17-74 | loses exactly if another key than the observed one is current and can be read, then changes nothing and returns that key; a winner does what the store script does |
| `RedisStore.InstalledIsConsistent` | jwt/redis_scripts.go:35-59 | installing and trimming keeps hash, sorted set and pointer in agreement and within the capacity |
| `RedisRotation.WinnerObservedPointer` | jwt/redis_scripts.go:27-33 | on reachable states the compare step succeeds exactly when the pointer still is what the client observed |
| `RedisRotation.InstallKeepsInv` | jwt/redis_scripts.go:35-59 | a winning script keeps the protocol invariant |
| `RedisRotation.StepKeepsInv` | jwt/redis_repository.go:61-95 | each script and each failure of each client keeps the invariant, also when the answer is lost |
| `RedisRotation.TraceKeepsInv` | jwt/redis_repository.go:61-95 | the invariant holds after every interleaving |
| `RedisRotation.ReachableIsConsistent` | jwt/redis_scripts.go:35-59 | every reachable state has the same ids in hash and sorted set, the pointer among them, and at most `capacity` keys |
| `RedisRotation.AtMostOneWinner` | jwt/redis_repository.go:61-80 | of all rotations that observed the same current id, at most one ever installs its key |
| `RedisRotation.LoserReturnsWinnerOrLater` | jwt/redis_repository.go:155-177 | a loser returns the key, payload included, that became current with or after the winner of the id it observed |
| `RedisRotation.LoserReturnsCurrent` | jwt/redis_scripts.go:27-33 | over every trace: a loser ran its script at some event, that left Redis as it was, and what it returns is the payload current then, under another id than it had observed |
| `RedisClient.Cluster.constructor` | jwt/redis_repository.go:108-113 | starts with an empty server and no clients |
| `RedisClient.Cluster.Call` | jwt/redis_repository.go:133-153 | reading the current key, creating a candidate and failing are steps of the machine |
| `RedisClient.Cluster.Execute` | jwt/redis_repository.go:155-200 | a rotating client wins exactly unless another readable key is current, a forced one always; a winner's key is installed and trimmed, a loser changes nothing; the answer is current |
| `RedisClient.Cluster.RunScript` | jwt/redis_repository.go:155-200 | running the rotate or store script on the server is a step of the machine, and its answer is the candidate it stored or the key that was current; a lost answer or an expired key is a failure |
| `RedisClient.Cluster.Others` | jwt/redis_repository.go:61-95 | whatever other clients do, this client's progress stays as it is and the id of its candidate stays its own |
| `RedisClient.ScriptStep` | jwt/redis_scripts.go:17-124 | what the scripts do to the server is what the machine's steps say |
| `RedisClient.Rotate` | jwt/redis_repository.go:61-80 | with rivals between all its calls the result is determined: an error if reading fails; the current key the first script met if that is alive; else an error without a live candidate, a connection or an answer; else what the second script gives in the state it met, the candidate or the live key of another client |
| `RedisClient.ForcedRotate` | jwt/redis_repository.go:83-95 | succeeds exactly with a live candidate, a connection and an answer, and returns the candidate, which is current as soon as the script ran, answered or not |
| `RedisClient.Store` | jwt/redis_repository.go:155-200 | the script runs exactly with a live candidate and a connection; it leaves the state it met installed and trimmed, or unchanged for a loser; the result is the candidate or the current key, if answered and alive |
| `KeyRing.Find` | jwt/repository.go:35-50 | the first key with the id decides: returned if alive, an error if expired; not found exactly when no key has the id |
| `KeyRing.NewRepository` | jwt/repository.go:14-22 | accepts exactly capacities from 2 to 1000, and zero for ten |
| `KeyRing.Repository.constructor` | jwt/repository.go:14-22 | starts empty |
| `KeyRing.Repository.Lookup` | jwt/repository.go:35-50 | the loop is that lookup |
| `KeyRing.Repository.Current` | jwt/repository.go:24-33 | the newest live key, and an error exactly when all are expired |
| `KeyRing.Repository.Rotate` | jwt/repository.go:52-69 | returns the newest live key and changes nothing if there is one; else the created key is in front of the others, cut to the capacity; a failed creation changes nothing |
| `KeyRing.Repository.ForceRotate` | jwt/repository.go:71-80 | puts the created key in front; a failed creation changes nothing |
| `KeyRing.Repository.PrependLocked` | jwt/repository.go:82-87 | the key is in front, the others follow in their order, and only the oldest goes beyond the capacity |
| `KeyRing.PrependLookup` | jwt/repository.go:82-87 | a rotated-in key is found at once, and other keys that are still found are found as before |
| `ReaderCache.CallExtends` | jwt/cached_provider.go:147-220 | what is known of a call in flight survives every event of others |
| `ReaderCache.OwnCallStep` | jwt/cached_provider.go:147-220 | each access of a parse call keeps what is known of it, shared flights included |
| `ReaderCache.ParseStep` | jwt/cached_provider.go:179-182 | a parse is for the cache key of the call that makes it |
| `ReaderCache.JoinStep` | jwt/cached_provider.go:163-163 | a call that joined a flight always has the cache key of that flight |
| `ReaderCache.EntryOrigin` | jwt/cached_provider.go:187-196 | an entry was there before or is stored by a load of the current epoch, and none is there after a clear |
| `ReaderCache.CacheStep` | jwt/cached_provider.go:187-196 | every entry comes from a parse for its own cache key that no finished clear postdates |
| `ReaderCache.EpochStep` | jwt/cached_provider.go:138-141 | only a clear changes the epoch, and the ring stays bounded |
| `ReaderCache.StepKeepsInv` | jwt/cached_provider.go:108-220 | each event keeps the invariant |
| `ReaderCache.TraceKeepsInv` | jwt/cached_provider.go:108-220 | the invariant holds after every interleaving |
| `ReaderCache.EntriesAreNewerThanClears` | jwt/cached_provider.go:131-198 | after a successful clear every entry was parsed, for its own cache key, after that clear's epoch bump, whatever loads were in flight |
| `ReaderCache.ReadersAreTheirOwn` | jwt/cached_provider.go:147-220 | a caller only gets a reader that some call with the same cache key parsed, with a key the ring resolved then, through the cache and shared flights alike |
| `ReaderCache.WarmHitsAreFresh` | jwt/cached_provider.go:222-251 | at a warm hit's revalidation the ring's lookup of its id returned a key of the provider's algorithm that is alive, and the reader was not expired |
| `ReaderCache.RingIsBounded` | jwt/repository.go:82-87 | the ring never exceeds its capacity |
| `CachedProvider.World.constructor` | jwt/cached_provider.go:131-145 | starts with an empty cache in epoch zero |
| `CachedProvider.World.Do` | jwt/cached_provider.go:147-220 | an access extends the trace by one enabled event |
| `CachedProvider.World.Others` | jwt/cached_provider.go:147-220 | rivals never change this call's own progress, nor release a mutex it holds |
| `CachedProvider.World.AwaitLock` | jwt/cached_provider.go:188-192 | the mutex is free when it returns |
| `CachedProvider.ForeignKeeps` | jwt/cached_provider.go:147-220 | an event of another call leaves this call as it is |
| `CachedProvider.ClearCache` | jwt/cached_provider.go:131-145 | succeeds exactly if the backend does, and the epoch grows either way; after a success every entry was parsed after the call began, with rivals moving between its two halves and after it |
| `CachedProvider.ForcedRotate` | jwt/cached_provider.go:108-120 | succeeds exactly if a key is created and the clear succeeds; then every entry was parsed after the new key entered the ring; a failed creation changes nothing |
| `CachedProvider.RevalidateCached` | jwt/cached_provider.go:222-233 | a fresh reader is returned; a stale one is deleted and the call goes on; cancellation and a failing delete are errors; fresh as the ring it meets says |
| `CachedProvider.Load` | jwt/cached_provider.go:179-197 | returns what the token holds exactly if it can be verified with a key the ring resolves and storing, where it is tried, succeeds; the cache afterwards holds it exactly if it is cacheable and the epoch still is the one seen before |
| `CachedProvider.Flight` | jwt/cached_provider.go:161-198 | epoch, second look, revalidation, parsing and storing, each in the state it meets, determine the result and the cache |
| `CachedProvider.Wait` | jwt/cached_provider.go:200-218 | a joined call gets exactly the result of the call it joined, or gives up |
| `CachedProvider.TryOnce` | jwt/cached_provider.go:161-200 | joins exactly if the other call flies for the same cache key, else leads; the result is that of the wait or of the flight |
| `CachedProvider.LoadShared` | jwt/cached_provider.go:161-219 | all attempts but the last one made failed, and the result is that of the last |
| `CachedProvider.Lookup` | jwt/cached_provider.go:147-220 | a failing look is an error; a fresh entry is returned; a stale or missing one leads to the attempts |
| `CachedProvider.ParseWithCache` | jwt/cached_provider.go:147-220 | every reader returned was parsed for this cache key with a key the ring resolved then, and a warm hit was also revalidated against the ring. An entry of the right algorithm whose key the ring resolves, neither of them expired, is returned; a call that finds nothing twice and leads returns what the token holds if that can be verified, and without a clear since its epoch it is in the cache afterwards |
| `CachedProvider.WarmHits` | jwt/cached_provider.go:148-156 | the first of these two promises follows from what the accesses of a call give |
| `CachedProvider.ColdLoads` | jwt/cached_provider.go:161-198 | and the second |
| `Geohash.BoxIsProper` | geo/geohash.go:82-126 | every box is a proper part of the world |
| `Geohash.BoxContainsPoint` | geo/geohash.go:41-79 | the box of a point's own bits contains it |
| `Geohash.InsideDeterminesBits` | geo/geohash.go:41-126 | every inner point of a box has the box's bits |
| `Geohash.HalfOpenCells` | geo/geohash.go:53-70 | west of the antimeridian and below the pole, a point has exactly the bits of the box that holds it inside or on its west or south edge |
| `Geohash.BoxByNumber` | geo/geohash.go:82-126 | the bits at even positions number the columns from west to east, those at odd positions the rows from south to north, of as many equal ones as they can number |
| `Geohash.QuarterWayRound` | geo/geohash.go:41-79 | latitude 0 and longitude 90 have bits 11100 and the letter w |
| `Geohash.LetterTable` | geo/geohash.go:6-6 | the alphabet is five runs of consecutive characters from 0, b, j, m and p on |
| `Geohash.DisjointInteriors` | geo/geohash.go:41-126 | boxes of different bit strings of one length share no inner point |
| `Geohash.HashOfInverts` | geo/geohash.go:6-11 | letters to bits to letters is the identity on every hash |
| `Geohash.BitsOfHashInverts` | geo/geohash.go:6-11 | bits to letters to bits is the identity on whole groups of five |
| `Geohash.GroupOfFive` | geo/geohash.go:11-11 | the first of five bits is the heaviest |
| `Geohash.Bisect` | geo/geohash.go:53-70 | keeps the half that holds the point, the upper one on a tie |
| `Geohash.Encode` | geo/geohash.go:41-79 | fails exactly on invalid points and precisions, else returns the letters of the point's bits |
| `Geohash.Narrow` | geo/geohash.go:95-103 | the five masked bisections of a letter append its five bits |
| `Geohash.Decode` | geo/geohash.go:82-118 | fails exactly on wrong lengths and foreign letters, never on its own validation, else returns the box of the letters' bits and its centre |
| `Geohash.CellContainsPoint` | geo/bounds.go:52-87 | the cell of a point's hash contains the point, edges and poles included |
| `Geohash.CenterEncodesBack` | geo/geohash.go:41-126 | encoding the centre of a hash's cell gives the hash back |
| `Geohash.ShorterIsPrefix` | geo/geohash.go:41-79 | a shorter hash of a point is a prefix of a longer one |
| `Geohash.CellsAreDisjoint` | geo/geohash.go:82-126 | different hashes of one length have cells without a common inner point |
| `UuidV7.TickOf` | id/uuid.go:164-174 | fails exactly before the epoch and outside 48 bits of milliseconds, each with its own error; the mask loses nothing of the fraction |
| `UuidV7.BigEndianOrder` | id/uuid.go:151-156 | big-endian bytes are ordered as their numbers |
| `UuidV7.BigEndianValue` | id/uuid.go:151-156 | big-endian bytes denote their number |
| `UuidV7.LayoutOrder` | id/uuid.go:148-159 | a later tick gives a greater UUID, whatever the random bytes are |
| `UuidV7.LayoutFields` | id/uuid.go:148-159 | timestamp, version 7, sequence and variant stand where section 5.7 of RFC 9562 puts them, and the other bits stay random |
| `UuidV7.Advance` | id/uuid.go:123-146 | a call succeeds exactly with a clock in range, entropy and a tick left, and each error has its exact cause; the tick is then the clock's or one more than the last, whichever is greater, and otherwise stays |
| `UuidV7.Generator.constructor` | id/uuid.go:80-90 | starts below every tick |
| `UuidV7.Generator.NextV7` | id/uuid.go:123-162 | returns the layout of the next tick, and the field is updated exactly on success |
| `UuidV7.Pack` | id/uuid.go:148-161 | the nine byte assignments produce the layout |
| `UuidV7.TicksIncrease` | id/uuid.go:131-146 | over every run the ticks used grow strictly |
| `UuidV7.StrictlyIncreasing` | id/uuid.go:123-174 | over every run, for clocks that repeat or go back and calls that fail, the UUIDs returned grow strictly in byte order, as section 6.2 of RFC 9562 asks |
| `AuditRepository.AppendKeepsInv` | audit/memory_repository.go:26-59 | an acceptable batch keeps revisions 1 to n per aggregate and global uniqueness |
| `AuditRepository.StoredIsHistory` | audit/memory_repository.go:108-124 | what is stored for an aggregate is a valid history |
| `AuditRepository.SortByRevision` | audit/history.go:27-29 | a sorted rearrangement |
| `AuditRepository.SortIsUnique` | audit/history.go:27-29 | a numbered sequence is the only sorted arrangement of its entries, so an unstable sort cannot matter |
| `AuditRepository.DistinctSnoc` | audit/history.go:48-55 | the two seen-maps detect exactly the repeated event ids and idempotency keys |
| `AuditRepository.DistinctConcat` | audit/memory_repository.go:227-234 | testing a batch against the maps of the stored entries decides global uniqueness |
| `AuditRepository.CheckHistory` | audit/history.go:37-56 | succeeds exactly on histories; each error has its cause |
| `AuditRepository.NewHistory` | audit/history.go:18-64 | succeeds exactly when some order of the entries is a history, and returns that order |
| `AuditRepository.ValidateAppendBatch` | audit/memory_repository.go:192-213 | accepts exactly batches of one aggregate with consecutive revisions and no repeats; each error has its cause |
| `AuditRepository.SuccessorMeaning` | audit/memory_repository.go:200-202 | wrap-around of the 64-bit revision never makes a valid one a successor |
| `AuditRepository.Existing` | audit/memory_repository.go:216-226 | collects the aggregate's entries and fills the maps from all entries |
| `AuditRepository.ValidateContinuation` | audit/memory_repository.go:215-255 | accepts exactly batches that continue the stored history without any repeat |
| `AuditRepository.ReverseEntries` | audit/memory_repository.go:279-283 | reverses in place |
| `AuditRepository.MatchingAggregate` | audit/memory_repository.go:257-277 | the query for an aggregate selects exactly its entries in append order |
| `AuditRepository.MatchingPositions` | audit/memory_repository.go:257-277 | a query selects, in append order, the entries at exactly the positions that meet every bound it gives, ends included |
| `AuditRepository.MatchingRange` | audit/memory_repository.go:257-277 | asking for a range of revisions of an aggregate gives exactly that part of its history |
| `AuditRepository.Arranged` | audit/memory_repository.go:92-98 | the first entries found or, newest first, the last ones in reverse, as many as the limit allows |
| `AuditRepository.Select` | audit/memory_repository.go:83-91 | the loop selects the matching entries |
| `AuditRepository.Arrange` | audit/memory_repository.go:92-98 | reversing in place and cutting gives that arrangement |
| `AuditRepository.MemoryRepository.constructor` | audit/memory_repository.go:14-17 | starts empty |
| `AuditRepository.MemoryRepository.Append` | audit/memory_repository.go:26-59 | all or nothing, succeeds exactly on acceptable batches, which continue the revisions of one aggregate; keeps the invariant; the error names the cause |
| `AuditRepository.ContinuationIsAcceptable` | audit/memory_repository.go:192-255 | every batch is acceptable that continues the revisions of one aggregate with events of that aggregate and revision and with ids and keys found nowhere else |
| `AuditRepository.MemoryRepository.Find` | audit/memory_repository.go:68-99 | the matching entries, arranged as asked; fails exactly on cancellation, a blank aggregate, a reversed range or a negative limit |
| `AuditRepository.MemoryRepository.LoadHistory` | audit/memory_repository.go:108-124 | never fails validation: returns all entries of the aggregate with the head revision |
| `AuditRepository.MemoryRepository.Latest` | audit/memory_repository.go:133-145 | the head of that history |
| `AuditRepository.MemoryRepository.FindSnapshot` | audit/memory_repository.go:173-190 | the newest entry with a snapshot below the bound, and none only if there is none |
| `AuditRepository.FirstCandidate` | audit/memory_repository.go:181-188 | the scan returns the entry with the greatest revision among those with a snapshot below the bound |
| `AuditRepository.NewestSnapshot` | audit/memory_repository.go:181-188 | the first hit of the newest-first scan has the greatest revision |
| `AuditRepository.EveryRunKeepsInv` | audit/memory_repository.go:26-59 | after every sequence of appends each aggregate has a loadable history of valid entries with revisions 1 to n, and no event id or idempotency key occurs twice |
| `Permutations.PermsCount` | collections/permutations.go:19-32 | n! results |
| `Permutations.PermsAreRearrangements` | collections/permutations.go:19-32 | every result rearranges the work slice and keeps its fixed front |
| `Permutations.PermsAreComplete` | collections/permutations.go:19-32 | every rearrangement of distinct elements is a result |
| `Permutations.PermsAreDistinct` | collections/permutations.go:19-32 | results over distinct elements are distinct |
| `Permutations.PermsPick` | collections/permutations.go:19-32 | permuting values is permuting indices and picking |
| `Permutations.EveryPermutationOnce` | collections/permutations.go:9-35 | run to the end, the results are the picks of all index permutations, each exactly once, n! in all |
| `Permutations.PermsOrder` | collections/permutations.go:19-32 | the results come in equal blocks, one per element that can follow the fixed ones, in the order of the work slice, and each block is the results with that element swapped to the front |
| `Permutations.FirstIsUnchanged` | collections/permutations.go:19-32 | the first result is the input |
| `Permutations.Generate` | collections/permutations.go:18-32 | yields in order until the consumer stops, and the work slice is restored after every call, also on early stop |
| `Permutations.Permute` | collections/permutations.go:9-35 | the consumer gets exactly the results up to where it stops; empty input gives one empty result |

## Left out

- CachedProvider.ParseWithCache: no promise that the reader was parsed after the call began, because a call may join a flight that parsed before.
- UUID text parsing and formatting, the Base58/Base62 string wrappers with their UTF-8 check, and blank checks beyond ASCII white space.
- Entropy, clocks, context cancellation, errors of readers, processors, writers, stores and cache backends: parameters; error texts and wrapping are not modelled.
- The kinds of batch errors: an error is one of the context or not, and what the caller's retry and skip predicates say of it is a flag.
- Exhaustion of the 64-bit checkpoint version, `batch` jobs and the SQL checkpoint store.
- Invalid UTF-8 in wildcard patterns (strings are sequences of runes) and `FirstWildcardPathMatch`, the same loop as `FirstWildcardMatch`.
- Redis key expiry, `DeleteAll`, the metadata hash, key TTL validation, payload encoding, and loss of precision of scores as doubles; ids are numbers whose order stands for the byte order that breaks ties.
- Rotation in MongoDB, whose steps are separate remote calls without the invariant of the Redis scripts.
- Signatures, algorithms, claims and JSON of tokens: keys are an id, an algorithm and an expiry; what a token holds and whether it can be verified is given, and it is accepted with a key the ring resolves.
- The cache's time to live, the profile that builds cache keys, fixed-key providers, and the scheduling inside the flight group beyond leading, joining, waiting and retrying.
- `cache`, `graph`, `measure`, `imagekit`, `geo/distance.go`, compression, geocoding and database clients: floating-point rounding, foreign libraries or easy members only.
- Audit entry texts, times and JSON bodies: one flag stands for their checks, and query texts are taken as already trimmed.
- Mutexes of the audit repository, the key ring and the UUID generator: each method is one atomic step.
- Slices are sequences where the source only appends or reslices, so aliasing between copies is not modelled; in-place buffers are arrays.
