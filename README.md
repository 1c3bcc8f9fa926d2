# hexdec in Dafny

hexdec is a small quiz for learning to convert numbers between decimal and
hexadecimal, written twice: in Rust (`hexdec.rs`) and in Go (`hexdec.go`). The
player chooses a maximum and a direction ("x2d": read hex, answer in decimal;
"d2x": read decimal, answer in hex; "both": a random direction), then answers
random challenges until the first wrong answer, when the program reports how
many rounds were played and the average response time.

This project models the rules of both programs and proves properties of them:

- `wrappers.dfy` — `Option`.
- `numerals.dfy` (module `Numerals`) — digit strings in a radix up to 36, the
  value they denote, and the canonical lowercase rendering both programs print,
  with the rendering proved to denote its number and signed renderings proved
  injective.
- `hexdec_rs.dfy` (module `HexdecRs`) — the Rust program: `set_max`,
  `set_mode`, the argument scan, the re-prompt loops, the game loop with its
  mixed-mode base choice, its answer-retry loop and its two counters, the
  arithmetic of `goodbye`, and the whole of `main` as one session.
- `hexdec_go.dfy` (module `HexdecGo`) — the Go program: the clamp of the
  maximum and the default of the mode in `welcome`, the `boolgen` bit cache,
  `randomInt`, the answer check of `playIterations`, the running average and
  the loop of `play`, and `main`.

The environment enters as values. In the Rust model: the argument vector,
the sequence of lines read from standard input, `draw(k)` for the k-th sample
of the challenge distribution and `elapsed(i)` for the milliseconds round i
took; standard input running out is the `unwrap` panic. In the Go model: the
two setup lines after `TrimSpace`, and for each iteration a `Turn` with the
`Int63` draw of the mixed mode's fresh generator, the draw behind `rand.Intn`,
the reply line as `ReadString` returns it, and the response time in whole
seconds; the turns running out stands for the interrupt that makes the signal
handler call `goodbye`.

Where the Rust program keeps the mode as the radix answers are read in (16
for "d2x", 10 for "x2d", 1 for "both", 0 for unset), the model does too. The
Rust `%` (truncating) is written out as `RustRem`; Go's `/` on the
non-negative times is floor division, as Dafny's is. The Go `switch` of
`play` compares the mode with the three constants on every iteration; as the
mode never changes, the recursive model of the loop takes the case it selects
(`CaseOf`), and `RunIteration` makes the comparisons as the program does.

## Model

| member | source | states |
|---|---|---|
| Numerals.ToDigits | hexdec.rs:146-147 | the printed digits are digits of the radix, without a leading zero, and denote exactly the number |
| Numerals.ToDigitsLowercase | hexdec.rs:147 | the canonical rendering holds only decimal digits and lowercase letters, as `{:x}` prints |
| Numerals.SignedDigitsRenders | hexdec.go:139-141 | the rendering starts with "-" exactly for a negative number, and the rest is digits of the radix, without a leading zero, denoting the magnitude |
| Numerals.RendersInjective | hexdec.go:165 | a text renders at most one number |
| Numerals.SignedDigitsInjective | hexdec.go:165 | two numbers with the same signed rendering are equal, so comparing renderings compares numbers |
| HexdecRs.FromStrRadix | hexdec.rs:154 | a successful parse always yields a 64-bit value |
| HexdecRs.FromStrRadixReadsSignedDigits | hexdec.rs:154 | every 64-bit value written in a radix is parsed back to itself |
| HexdecRs.SetMax | hexdec.rs:23-37 | the empty string gives 256; the result is non-zero exactly for the empty string or a non-zero decimal i64, so every other string gives the unset value 0 |
| HexdecRs.SetMaxReadsDecimal | hexdec.rs:23-37 | every i64 written in decimal, 0 and negatives included, sets the maximum to itself |
| HexdecRs.SetMode | hexdec.rs:39-52 | the result is in {0, 1, 10, 16}: 16 exactly for "d2x", 10 exactly for "x2d" and "", 1 exactly for "both", 0 for every other token |
| HexdecRs.ScanFrom | hexdec.rs:81-97 | the scan only ever stores a mode in {0, 1, 10, 16} |
| HexdecRs.ScanArgs | hexdec.rs:80-97 | the index loop over the arguments ends, and with the result of the recursive scan from index 1 with both settings unset |
| HexdecRs.ScanConcat | hexdec.rs:81-97 | a scan that gets through a prefix continues on the rest of the arguments from the settings the prefix left |
| HexdecRs.LaterFlagOverrides | hexdec.rs:84-92 | a flag appended later replaces its setting with the value after it and leaves the other setting as it was |
| HexdecRs.UnknownArgumentSkipped | hexdec.rs:93 | an appended argument that is not a flag changes nothing |
| HexdecRs.TrailingFlagPanics | hexdec.rs:85-91 | a flag in the last position has no value and the scan fails |
| HexdecRs.Resolve | hexdec.rs:100-118 | a non-zero setting is kept without reading; otherwise the result is the parse of the first line that parses to non-zero, every line before it parsing to 0, or none when every remaining line parses to 0 |
| HexdecRs.ResolveSetting | hexdec.rs:100-118 | the `while value == 0` loop ends with the value and position the resolution gives |
| HexdecRs.ZeroRepromptsLikeInvalid | hexdec.rs:100-105 | a line "0" and a non-empty line that is not a number both leave the maximum unset and prompt again |
| HexdecRs.ResolvedModeIsPlayable | hexdec.rs:113-118 | a mode that leaves its re-prompt loop is 1, 10 or 16 |
| HexdecRs.RustRem | hexdec.rs:133 | the remainder of truncated division: it differs from the dividend by a multiple of the divisor, is smaller than the divisor in magnitude, and is never of the opposite sign to the dividend |
| HexdecRs.MixedBase | hexdec.rs:132-138 | a non-negative sample picks 16 exactly when odd and 10 when even; the panic arm is reached exactly by negative odd samples |
| HexdecRs.Display | hexdec.rs:145-149 | in base 16 the challenge is shown as decimal digits denoting it, without a leading zero; in base 10 as "0x" followed by lowercase hex digits denoting it, without a leading zero |
| HexdecRs.ReplyRoundTrip | hexdec.rs:154 | the challenge written in the round's base parses back to it |
| HexdecRs.Answer | hexdec.rs:143-164 | a base other than 10 and 16 breaks out at once with the answer 0; otherwise an answer consumes at least one line |
| HexdecRs.AnswerIsFirstParsableLine | hexdec.rs:143-164 | the answer is the parse of the first line that parses in the round's base, after only malformed lines; without one every remaining line is malformed |
| HexdecRs.ReadAnswer | hexdec.rs:143-164 | the retry loop returns the answer and position the answer function gives |
| HexdecRs.SessionStats.constructor | hexdec.rs:56-57 | both counters start at 0 with no round recorded |
| HexdecRs.SessionStats.RecordRound | hexdec.rs:167-169 | a scored round adds exactly its time to the total and 1 to the count, so the counters stay the length and the sum of the recorded times |
| HexdecRs.Goodbye | hexdec.rs:10-17 | the average is 0 for no rounds and otherwise the floor of total over count; seconds times 1000 plus milliseconds is the average, with milliseconds below 1000 |
| HexdecRs.RunGame | hexdec.rs:128-178 | the game loop ends as the recursive game does, with the count equal to the number of scored rounds and the total equal to the sum of their times |
| HexdecRs.ReplyDecidesRound | hexdec.rs:130-177 | in every mode, including a mixed round whose base is drawn after the challenge, an answer line parsable in the round's base scores the round with its challenge, base, answer and time, counted before the check, and the game goes on, with both samples used, exactly when answer and challenge are equal |
| HexdecRs.CorrectReplyWins | hexdec.rs:130-172 | in every mode, typing the challenge in the round's base (the drawn one in a mixed round) scores a won round and goes on |
| HexdecRs.MalformedReplyReprompts | hexdec.rs:130-161 | in every mode, a line unparsable in the round's base re-asks the same challenge in the same base: no sample drawn (not even the mixed round's base), nothing counted or timed |
| HexdecRs.FixedBaseRounds | hexdec.rs:145-154 | with base 10 or 16 every scored round is played in that base |
| HexdecRs.BaseSticks | hexdec.rs:132-138 | all rounds share one base in {10, 16}: the configured one, or in the mixed mode the one the first round's second sample chose |
| HexdecRs.GameExtendsTrace | hexdec.rs:128-178 | the game loop only appends rounds to those scored so far, and a lost game has scored the round it was lost on |
| HexdecRs.OnlyTheLastRoundIsLost | hexdec.rs:172-177 | every scored round is won except the last one, which is lost exactly when the game ends lost |
| HexdecRs.RoundsTimedInOrder | hexdec.rs:140-169 | round i is timed by the i-th elapsed time |
| HexdecRs.ChallengesInRange | hexdec.rs:108-138 | when the samples lie in [0, max) so do all challenges, and the panic arm of the mixed mode is never reached |
| HexdecRs.Session | hexdec.rs:54-178 | a trailing flag ends the session before any prompt; input running out during a prompt ends the setup; a resolved maximum that is not positive ends in the range panic with that maximum, before the mode is asked; otherwise the game is played with the resolved maximum and mode, from the line after the mode, and only with a positive maximum and a mode of 1, 10 or 16 |
| HexdecRs.SessionChallengesInRange | hexdec.rs:108-130 | in a session that plays, every challenge lies in [0, max) when the samples do |
| HexdecRs.RunSession | hexdec.rs:54-178 | `main` ends as the session does, and reports the `goodbye` summary of the scored rounds exactly when the game is lost |
| HexdecGo.Atoi | hexdec.go:57 | the value is always an int64; text that is not an optional sign and decimal digits gives 0 with an error; any error comes with 0 or an int64 bound |
| HexdecGo.AtoiReadsSignedDigits | hexdec.go:155 | every int64 written in decimal is read back without error |
| HexdecGo.ParseHexReply | hexdec.go:159-160 | behind the "0x" prefix only hex digits are accepted, giving a non-negative int64; anything else gives 0 with an error |
| HexdecGo.ClampMax | hexdec.go:57-68 | `Atoi` failure (the empty line included) is fatal; the result is non-zero and at most 256; it is the converted value exactly when that is non-zero and at most 256, negatives included, and 256 otherwise |
| HexdecGo.EmptyMaxIsFatal | hexdec.go:50-60 | the empty line the prompt offers for the default ends the program |
| HexdecGo.ClampMaxWithDefault | hexdec.go:50-68 | the empty line gives the advertised default 256; only other lines `Atoi` rejects are fatal; the result is non-zero and at most 256 |
| HexdecGo.DefaultMode | hexdec.go:77-82 | the empty line gives "x2d" and any other line is kept verbatim |
| HexdecGo.Welcome | hexdec.go:29-84 | `welcome` is fatal exactly when `Atoi` rejects the maximum line, the empty line included; otherwise it returns the clamped maximum, non-zero and at most 256, and the mode with its default, never empty |
| HexdecGo.WelcomeWithDefault | hexdec.go:50-84 | with the announced default an empty maximum line gives 256 and the mode with its default, only other lines `Atoi` rejects are fatal, and every other line is treated as `welcome` treats it |
| HexdecGo.BoolGen.constructor | hexdec.go:98-100 | a new generator has an empty cache and has drawn nothing |
| HexdecGo.BoolGen.Bool | hexdec.go:86-96 | a refill happens only when no bits remain; afterwards remaining is in [0, 62] and the result is bit 62 - remaining of the current draw, so successive calls give successive bits of one draw |
| HexdecGo.MixedDirection | hexdec.go:109-112 | a fresh generator with its first bit discarded gives bit 1 of its single draw as the direction |
| HexdecGo.RandomInt | hexdec.go:127-129 | there is a value exactly when max > min, and it lies in [min, max); otherwise `Intn` panics |
| HexdecGo.RandomIntCoversRange | hexdec.go:127-129 | every value of [min, max) is reachable by some draw |
| HexdecGo.DisplayRenders | hexdec.go:138-142 | the challenge is shown as "0x" and the hex rendering of the number (x2d), or as its decimal rendering (d2x), with a "-" exactly for a negative number |
| HexdecGo.DisplayInjective | hexdec.go:138-142 | distinct challenges are shown as distinct texts in each direction |
| HexdecGo.CheckAnswer | hexdec.go:138-165 | comparing the reformatted reply with the shown challenge is the same as comparing the number the reply is read as (0 after an error) with the challenge |
| HexdecGo.MalformedReplyWinsOnlyOnZero | hexdec.go:154-162 | a reply that does not parse in the round's notation wins exactly when the challenge is 0 |
| HexdecGo.ExpectedReplyWins | hexdec.go:138-165 | the challenge written in decimal (x2d) or in hex digits (d2x) wins |
| HexdecGo.ReplyAsWritten | hexdec.go:150 | `TrimSuffix(line, "\r\n")` gives the line itself or the line with exactly its final "\r\n" removed, and removes something exactly when the line ends in "\r\n" |
| HexdecGo.UnixLineReadsAsZero | hexdec.go:149-150 | a line ended by a bare line feed keeps it after the trim and wins exactly when the challenge is 0 |
| HexdecGo.ReplyFromLineStripsTerminator | hexdec.go:149-150 | the corrected trim removes "\n" and "\r\n" and keeps an unterminated last line |
| HexdecGo.ExpectedLineWins | hexdec.go:147-165 | with the corrected trim the expected reply typed on a line ended by "\n" wins |
| HexdecGo.AverageStepBounds | hexdec.go:119 | one update of the average stays between the smallest and largest of the old average and the new time |
| HexdecGo.RunningAverage | hexdec.go:118-119 | after one round the average is that round's time, and it always lies between the smallest and largest response time seen |
| HexdecGo.Globals.constructor | hexdec.go:24-27 | the globals start at their zero values with nothing counted |
| HexdecGo.Globals.CountIteration | hexdec.go:118-119 | each iteration adds exactly 1 to `iterations` and folds the current response time into the average, leaving the rest unchanged |
| HexdecGo.PlayIterationsOutcome | hexdec.go:131-166 | `playIterations` panics exactly for a maximum that is not positive; otherwise it returns the turn's response time, and success exactly when the trimmed reply is read as the drawn challenge |
| HexdecGo.CaseOf | hexdec.go:108-116 | a mode selects a case of the `switch` exactly when it is one of "both", "d2x" and "x2d" |
| HexdecGo.IterationOutcome | hexdec.go:108-117 | an iteration panics exactly in a matched case with a maximum that is not positive; a matched case records its own turn's response time, and no matched case leaves both globals as they were |
| HexdecGo.RunIteration | hexdec.go:108-117 | the `switch` gives the outcome of one iteration: a fresh generator's direction in the mixed mode, a fixed direction for "d2x" and "x2d", and the previous values for any other mode |
| HexdecGo.PlayFromStep | hexdec.go:107-123 | one pass of the loop: a panic ends with the times counted so far, a wrong reply ends lost with its time counted, a right one goes on to the next turn with the globals set to the outcome |
| HexdecGo.PlayExtendsTimes | hexdec.go:107-124 | the loop only appends to the counted times, at most one per turn; an interrupt after the last turn has counted one per turn, and a lost game the iteration it was lost on |
| HexdecGo.PlayTurn | hexdec.go:108-119 | one pass sets `userSucceeded` and `responseTime` to the iteration's outcome and counts it, keeping the globals consistent, and changes nothing on a panic |
| HexdecGo.Play | hexdec.go:102-125 | the loop of `play` ends as the recursive play does, with `iterations` the number of counted times and `averageTime` their running average |
| HexdecGo.Run | hexdec.go:183-186 | `main` is fatal exactly when `welcome` as written is, and otherwise plays with what `welcome` returned |
| HexdecGo.UnknownModeEndsAfterOneIteration | hexdec.go:107-123 | a mode no case matches leaves `userSucceeded` false, so exactly one iteration, with time 0, is counted and the game is lost |
| HexdecGo.IterationsCountTurns | hexdec.go:107-124 | in a known mode the k-th counted time is the k-th reply's time |
| HexdecGo.NonPositiveMaxPanics | hexdec.go:127-133 | a maximum that is not positive makes the first iteration of a known mode panic in `Intn` before anything is counted |

## Left out

- Console output (banners, prompts, messages, `flush`) and the wording of the reports; the models return the numbers a report prints.
- HexdecRs.Goodbye: models the numbers only; the Rust report prints the milliseconds without zero padding (1050 ms appears as "1.50"), and that text is not modelled.
- Reading standard input: lines enter as strings. The Rust `lines()` already drops the terminator. The Go setup lines enter after `TrimSpace`. A `ReadString` error during setup is fatal and is not modelled. A fresh `bufio.Reader` per prompt can lose buffered input, and that is not modelled either.
- Randomness: `thread_rng`, `Uniform`, `rand.Seed`, `rand.NewSource` and `Intn` are library code. Samples enter as given values. `Intn`'s reduction of a draw to [0, n) is taken as `draw % n`.
- The clock: `Instant`, `as_millis`, the `try_into().unwrap()` to `usize` and `time.Now().Unix()` are replaced by given non-negative times. A negative Go response time (clock set back) is not modelled.
- Signals and concurrency: the Rust `ctrlc` handler, the Go `signalHandler` goroutine and their race with the game loop are not modelled. `Arc<AtomicUsize>` is modelled as plain counters without wrap-around. An interrupt is modelled only between Go iterations, as the turns running out.
- Process exit (`std::process::exit`, `os.Exit`, `log.Fatal`) and the panics are modelled as the ends of a session.
- Parser fine print: the models accept an optional sign (Rust, and Go `Atoi`) and digits of the radix, in either case for hex, within int64 bounds. They do not model Go's underscores after a base prefix. They do not model the order in which Go's `ParseUint` reports an overflow that comes before a bad character.
- HexdecGo.RunningAverage: Go's int64 arithmetic in the update is taken as unbounded; an overflow of `averageTime*(iterations-1)` needs times far beyond any game.
- HexdecGo.Play: the inner `for` loop of `playIterations` always ends in its unconditional `break` after one pass, so it is modelled as straight-line code, with no retry on malformed input.
- HexdecGo.Play: uses the corrected reply trim `ReplyFromLine`, as listed under Findings, rather than `ReplyAsWritten`; what the trim as written does to a reply from a Unix terminal is stated by HexdecGo.UnixLineReadsAsZero.
- HexdecGo.Run: follows `welcome` as written, so an empty maximum line is fatal; the corrected `welcome` is HexdecGo.WelcomeWithDefault, and no `main` built on it is modelled.

## Findings

| source | as written | input that shows it | evidently intended | confidence | as-written member | corrected member |
|---|---|---|---|---|---|---|
| hexdec.go:149-150 | `TrimSuffix(input, "\r\n")` removes only a Windows line end, so a reply typed on a terminal that sends "\n" keeps it and never parses, and is read as 0 | the challenge 0x1f with the reply line "31\n" is lost | remove the line end "\r\n" or "\n", so the typed digits are compared | high; not executed | HexdecGo.UnixLineReadsAsZero | HexdecGo.ReplyFromLineStripsTerminator |
| hexdec.go:50-60 | the prompt says "[default is 256]", but an empty line is rejected by `Atoi` and ends the program through `log.Fatal`; the `convNum == 0` branch that sets the default is reached only by typing 0 | the empty line at the maximum prompt | an empty line selects the default 256 | high; not executed | HexdecGo.EmptyMaxIsFatal | HexdecGo.WelcomeWithDefault |
