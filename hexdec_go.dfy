/**
 * The Go version of the quiz (hexdec.go).
 *
 * `welcome` reads a maximum (clamped to at most 256) and a game mode (checked
 * by nothing); `play` then repeats a round — a random challenge, the reply
 * reformatted and compared with the challenge as text — counting iterations and
 * keeping a running average of the response times in seconds, until a round is
 * not won.
 *
 * The environment enters as values: the two setup lines (already trimmed of
 * white space), and per iteration a `Turn` holding the draw of the mixed mode's
 * fresh generator, the draw behind `rand.Intn`, the reply line exactly as
 * `ReadString` returns it, and the whole seconds the reply took.
 */
module HexdecGo {
  import opened Wrappers
  import opened Numerals

  // ---------------------------------------------------------------------------
  // Parsing integers
  // ---------------------------------------------------------------------------

  /** What `strconv` returns: the value and whether an error came with it. */
  datatype Parsed = Parsed(value: int, failed: bool)

  /** The text is a decimal integer as `Atoi` reads it: an optional sign, then decimal digits. */
  predicate IsDecimalText(s: string) {
    var digits := if |s| > 0 && (s[0] == '+' || s[0] == '-') then s[1..] else s;
    digits != [] && AllDigits(digits, 10)
  }

  /**
   * `strconv.Atoi` on a 64-bit platform: a syntax error gives 0, a value out of
   * range gives the nearest 64-bit bound, both with an error.
   */
  function Atoi(s: string): (r: Parsed)
    ensures InI64(r.value)
    ensures !IsDecimalText(s) ==> r == Parsed(0, true)
    ensures r.failed ==> r.value in {0, I64_MIN, I64_MAX}
  {
    var digits := if |s| > 0 && (s[0] == '+' || s[0] == '-') then s[1..] else s;
    if digits == [] || !AllDigits(digits, 10) then Parsed(0, true)
    else
      var magnitude: int := DigitsValue(digits, 10);
      var v := if s[0] == '-' then -magnitude else magnitude;
      if v > I64_MAX then Parsed(I64_MAX, true)
      else if v < I64_MIN then Parsed(I64_MIN, true)
      else Parsed(v, false)
  }

  /** Every 64-bit integer written in decimal is read back by `Atoi` without error. */
  lemma AtoiReadsSignedDigits(v: int)
    requires InI64(v)
    ensures Atoi(SignedDigits(v, 10)) == Parsed(v, false)
  {
  }

  /**
   * `strconv.ParseInt("0x" + input, 0, 64)`: the prefix selects radix 16 and
   * leaves no place for a sign, so `input` must be hex digits; a syntax error
   * gives 0, a value out of range the largest int64.
   */
  function ParseHexReply(input: string): (r: Parsed)
    ensures InI64(r.value) && r.value >= 0
    ensures !(input != [] && AllDigits(input, 16)) ==> r == Parsed(0, true)
  {
    if input == [] || !AllDigits(input, 16) then Parsed(0, true)
    else
      var v := DigitsValue(input, 16);
      if v > I64_MAX then Parsed(I64_MAX, true) else Parsed(v, false)
  }

  // ---------------------------------------------------------------------------
  // `welcome`
  // ---------------------------------------------------------------------------

  /** `defaultUpperLimit`. */
  const DEFAULT_UPPER_LIMIT: int := 0x100

  /**
   * The maximum as `welcome` sets it from the trimmed line: a line `Atoi`
   * rejects (the empty line among them) is fatal, None; 0 and anything above
   * 256 become 256; any other value, negative ones included, is kept.
   */
  function ClampMax(input: string): (r: Option<int>)
    ensures r.None? <==> Atoi(input).failed
    ensures r.Some? ==> r.value != 0 && r.value <= DEFAULT_UPPER_LIMIT
    ensures r.Some? ==>
              (r.value == Atoi(input).value <==> Atoi(input).value != 0 && Atoi(input).value <= DEFAULT_UPPER_LIMIT)
    ensures r.Some? && r.value != Atoi(input).value ==> r.value == DEFAULT_UPPER_LIMIT
  {
    var converted := Atoi(input);
    if converted.failed then None
    else if converted.value == 0 then Some(DEFAULT_UPPER_LIMIT)
    else if converted.value > 256 then Some(DEFAULT_UPPER_LIMIT)
    else Some(converted.value)
  }

  /** The prompt offers 256 as the default, yet accepting it with an empty line ends the program. */
  lemma EmptyMaxIsFatal()
    ensures ClampMax("") == None
  {
  }

  /** The maximum with the default the prompt announces: an empty line means 256. */
  function ClampMaxWithDefault(input: string): (r: Option<int>)
    ensures input == "" ==> r == Some(DEFAULT_UPPER_LIMIT)
    ensures r.None? <==> input != "" && Atoi(input).failed
    ensures r.Some? ==> r.value != 0 && r.value <= DEFAULT_UPPER_LIMIT
  {
    if input == "" then Some(DEFAULT_UPPER_LIMIT) else ClampMax(input)
  }

  const DEC: string := "d2x"
  const HEX: string := "x2d"
  const MIX: string := "both"

  /** The game mode: the empty line means "x2d", anything else is taken as it is, unchecked. */
  function DefaultMode(input: string): (mode: string)
    ensures mode != ""
    ensures input == "" ==> mode == HEX
    ensures input != "" ==> mode == input
  {
    if input == "" then HEX else input
  }

  /**
   * `welcome` from its two trimmed lines; None where it is fatal, which is
   * whenever `Atoi` rejects the maximum, the empty line included.
   */
  function Welcome(maxLine: string, modeLine: string): (r: Option<(int, string)>)
    ensures r.None? <==> Atoi(maxLine).failed
    ensures r.Some? ==> Some(r.value.0) == ClampMax(maxLine) && r.value.1 == DefaultMode(modeLine)
    ensures r.Some? ==> r.value.0 != 0 && r.value.0 <= DEFAULT_UPPER_LIMIT && r.value.1 != ""
  {
    match ClampMax(maxLine)
    case None => None
    case Some(max) => Some((max, DefaultMode(modeLine)))
  }

  /** `welcome` with the announced default: an empty maximum line means 256 instead of ending the program. */
  function WelcomeWithDefault(maxLine: string, modeLine: string): (r: Option<(int, string)>)
    ensures r.None? <==> maxLine != "" && Atoi(maxLine).failed
    ensures maxLine == "" ==> r == Some((DEFAULT_UPPER_LIMIT, DefaultMode(modeLine)))
    ensures maxLine != "" ==> r == Welcome(maxLine, modeLine)
  {
    match ClampMaxWithDefault(maxLine)
    case None => None
    case Some(max) => Some((max, DefaultMode(modeLine)))
  }

  // ---------------------------------------------------------------------------
  // `boolgen`
  // ---------------------------------------------------------------------------

  const TWO_63: int := 0x8000_0000_0000_0000

  /** A value `rand.Source.Int63` returns. */
  type Int63 = x: int | 0 <= x < TWO_63

  function Pow2(k: nat): (p: nat)
    ensures p >= 1
  {
    if k == 0 then 1 else 2 * Pow2(k - 1)
  }

  /** Bit `k` of `x`, counting from the least significant bit 0. */
  predicate Bit(x: nat, k: nat) {
    (x / Pow2(k)) % 2 == 1
  }

  /** Shifting right once more halves what is left of a draw. */
  lemma DivTwice(a: nat, p: nat)
    requires p >= 1
    ensures a / p / 2 == a / (2 * p)
  {
    var q, r := a / p, a % p;
    var q2, r2 := q / 2, q % 2;
    assert a == (2 * p) * q2 + (p * r2 + r) by {
      assert a == p * q + r;
      assert p * q == p * (2 * q2 + r2) == (2 * p) * q2 + p * r2;
    }
    assert p * r2 <= p * 1;
    DivModUnique(a, 2 * p, q2, p * r2 + r);
  }

  /**
   * The bit-cache generator: one `Int63` draw of the source gives 63 booleans,
   * low bit first.  The source is `src`, whose k-th draw is `src(k)`; `drawn`
   * counts the draws taken.
   */
  class BoolGen {
    const src: nat -> Int63
    var drawn: nat
    var cache: int
    var remaining: int

    /** `cache` is what is left of the last draw after handing out `63 - remaining` bits. */
    ghost predicate Valid()
      reads this
    {
      0 <= remaining <= 63 &&
      (drawn == 0 ==> cache == 0 && remaining == 0) &&
      (drawn > 0 ==> cache == src(drawn - 1) / Pow2(63 - remaining))
    }

    /** `new()`: a generator with an empty cache. */
    constructor (src: nat -> Int63)
      ensures Valid() && this.src == src
      ensures drawn == 0 && cache == 0 && remaining == 0
    {
      this.src := src;
      drawn, cache, remaining := 0, 0, 0;
    }

    /**
     * `Bool`: refill from a fresh draw when the cache is used up, then hand out
     * its low bit and shift it away.  The result is bit `62 - remaining` of the
     * current draw, so successive calls give successive bits of one draw.
     */
    method Bool() returns (result: bool)
      requires Valid()
      modifies this
      ensures Valid()
      ensures drawn == if old(remaining) == 0 then old(drawn) + 1 else old(drawn)
      ensures remaining == if old(remaining) == 0 then 62 else old(remaining) - 1
      ensures 0 <= remaining <= 62
      ensures result == Bit(src(drawn - 1), 62 - remaining)
    {
      if remaining == 0 {
        cache, remaining := src(drawn), 63;
        drawn := drawn + 1;
      }
      ghost var draw: nat := src(drawn - 1);
      ghost var used: nat := 63 - remaining;
      assert cache == draw / Pow2(used);
      // `cache & 0x01 == 1` and `cache >>= 1` on a non-negative int64
      result := cache % 2 == 1;
      DivTwice(draw, Pow2(used));
      cache := cache / 2;
      remaining := remaining - 1;
    }
  }

  /**
   * The direction of a mixed-mode round: a fresh generator, one `Bool`
   * discarded, the next one used — bit 1 of the generator's first draw.
   */
  method MixedDirection(draw: Int63) returns (hexToDec: bool)
    ensures hexToDec == Bit(draw, 1)
  {
    var r := new BoolGen((_: nat) => draw);
    var discarded := r.Bool();
    hexToDec := r.Bool();
  }

  // ---------------------------------------------------------------------------
  // One iteration
  // ---------------------------------------------------------------------------

  /**
   * `randomInt(min, max)`, `min + rand.Intn(max - min)`: `Intn` panics (None)
   * unless its bound is positive.  How the generator brings a raw draw into
   * [0, n) is taken as `draw % n`.
   */
  function RandomInt(min: int, max: int, draw: nat): (r: Option<int>)
    ensures r.Some? <==> max > min
    ensures r.Some? ==> min <= r.value < max
  {
    if max - min <= 0 then None else Some(min + draw % (max - min))
  }

  /** Every value of the range comes out of some draw. */
  lemma RandomIntCoversRange(min: int, max: int, v: int)
    requires min <= v < max
    ensures RandomInt(min, max, v - min) == Some(v)
  {
  }

  /** The challenge as shown: `0x%x` when the reply is decimal (x2d), `Itoa` when it is hex (d2x). */
  function Display(n: int, hexToDec: bool): string {
    if hexToDec then "0x" + SignedDigits(n, 16) else SignedDigits(n, 10)
  }

  /** The challenge names `n`: `0x` and its hex digits, or its decimal digits, with a sign when negative. */
  lemma DisplayRenders(n: int, hexToDec: bool)
    ensures var shown := Display(n, hexToDec);
            (hexToDec ==> |shown| > 2 && shown[..2] == "0x" && Renders(shown[2..], n, 16)) &&
            (!hexToDec ==> Renders(shown, n, 10))
  {
  }

  lemma DisplayInjective(a: int, b: int, hexToDec: bool)
    ensures Display(a, hexToDec) == Display(b, hexToDec) ==> a == b
  {
    var shown := Display(a, hexToDec);
    if shown == Display(b, hexToDec) {
      DisplayRenders(a, hexToDec);
      DisplayRenders(b, hexToDec);
      if hexToDec {
        RendersInjective(shown[2..], a, b, 16);
      } else {
        RendersInjective(shown, a, b, 10);
      }
    }
  }

  /** The number a reply is taken for; parse errors are dropped, so a malformed reply counts as 0. */
  function ReplyValue(reply: string, hexToDec: bool): int {
    if hexToDec then Atoi(reply).value else ParseHexReply(reply).value
  }

  /** The reply is not a number at all in the expected notation. */
  predicate Malformed(reply: string, hexToDec: bool) {
    if hexToDec then !IsDecimalText(reply) else !(reply != [] && AllDigits(reply, 16))
  }

  /**
   * The check of `playIterations`: the reply, read and formatted again the way
   * the challenge is shown, is compared with the shown text.  That is the
   * same as comparing the numbers.
   */
  function CheckAnswer(n: int, hexToDec: bool, reply: string): (correct: bool)
    ensures correct <==> ReplyValue(reply, hexToDec) == n
  {
    DisplayInjective(ReplyValue(reply, hexToDec), n, hexToDec);
    Display(ReplyValue(reply, hexToDec), hexToDec) == Display(n, hexToDec)
  }

  /** A malformed reply is read as 0, so it wins exactly when the challenge is 0. */
  lemma MalformedReplyWinsOnlyOnZero(n: int, hexToDec: bool, reply: string)
    requires Malformed(reply, hexToDec)
    ensures CheckAnswer(n, hexToDec, reply) <==> n == 0
  {
  }

  /** The reply `playIterations` expects: the challenge in decimal for x2d, in hex digits for d2x. */
  function Expected(n: nat, hexToDec: bool): string {
    if hexToDec then ToDigits(n, 10) else ToDigits(n, 16)
  }

  /** Replying with the expected digits wins. */
  lemma ExpectedReplyWins(n: nat, hexToDec: bool)
    requires n <= I64_MAX
    ensures CheckAnswer(n, hexToDec, Expected(n, hexToDec))
  {
    if hexToDec { AtoiReadsSignedDigits(n); }
  }

  // ---------------------------------------------------------------------------
  // The reply line
  // ---------------------------------------------------------------------------

  /** The line ends in neither a line feed nor a carriage return that could pair with one. */
  predicate Unterminated(text: string) {
    |text| == 0 || (text[|text| - 1] != '\r' && text[|text| - 1] != '\n')
  }

  /** The reply as `playIterations` extracts it: `strings.TrimSuffix(line, "\r\n")`. */
  function ReplyAsWritten(line: string): (reply: string)
    ensures reply == line || reply + "\r\n" == line
    ensures reply != line <==> |line| >= 2 && line[|line| - 2..] == "\r\n"
  {
    if |line| >= 2 && line[|line| - 2..] == "\r\n" then line[..|line| - 2] else line
  }

  /**
   * A line ended by a bare line feed, as terminals outside Windows send it,
   * keeps its "\n", never parses, and so wins exactly when the challenge is 0.
   */
  lemma UnixLineReadsAsZero(n: int, hexToDec: bool, text: string)
    requires Unterminated(text)
    ensures ReplyAsWritten(text + "\n") == text + "\n"
    ensures CheckAnswer(n, hexToDec, ReplyAsWritten(text + "\n")) <==> n == 0
  {
    var line := text + "\n";
    if |line| >= 2 {
      assert line[|line| - 2..] == [text[|text| - 1], '\n'];
    }
    assert line[|line| - 1] == '\n';
    assert !IsDigit('\n', 16);
    if hexToDec {
      var digits := if |line| > 0 && (line[0] == '+' || line[0] == '-') then line[1..] else line;
      assert digits[|digits| - 1] == '\n';
    }
    MalformedReplyWinsOnlyOnZero(n, hexToDec, line);
  }

  /** The reply with its line terminator, "\r\n" or "\n", removed. */
  function ReplyFromLine(line: string): string {
    if |line| >= 2 && line[|line| - 2..] == "\r\n" then line[..|line| - 2]
    else if |line| >= 1 && line[|line| - 1] == '\n' then line[..|line| - 1]
    else line
  }

  /** Both terminators are removed, and a line without one (at end of input) is kept. */
  lemma ReplyFromLineStripsTerminator(text: string)
    requires Unterminated(text)
    ensures ReplyFromLine(text + "\n") == text
    ensures ReplyFromLine(text + "\r\n") == text
    ensures ReplyFromLine(text) == text
  {
  }

  /** With the terminator removed, the expected reply typed on a Unix terminal wins. */
  lemma ExpectedLineWins(n: nat, hexToDec: bool)
    requires n <= I64_MAX
    ensures CheckAnswer(n, hexToDec, ReplyFromLine(Expected(n, hexToDec) + "\n"))
  {
    var e := Expected(n, hexToDec);
    assert IsDigit(e[|e| - 1], if hexToDec then 10 else 16);
    ReplyFromLineStripsTerminator(e);
    ExpectedReplyWins(n, hexToDec);
  }

  // ---------------------------------------------------------------------------
  // The running average and the globals of `play`
  // ---------------------------------------------------------------------------

  function MinOf(s: seq<nat>): nat
    requires |s| > 0
  {
    if |s| == 1 then s[0]
    else
      var m := MinOf(s[..|s| - 1]);
      if s[|s| - 1] < m then s[|s| - 1] else m
  }

  function MaxOf(s: seq<nat>): nat
    requires |s| > 0
  {
    if |s| == 1 then s[0]
    else
      var m := MaxOf(s[..|s| - 1]);
      if s[|s| - 1] > m then s[|s| - 1] else m
  }

  lemma DivBounds(v: nat, d: nat, lo: nat, hi: nat)
    requires d > 0 && lo * d <= v <= hi * d
    ensures lo <= v / d <= hi
  {
    var q := v / d;
    if q < lo {
      MulMonotone(q + 1, lo, d);
    }
    if q > hi {
      MulMonotone(hi + 1, q, d);
    }
  }

  /** One update of the average keeps it between the smallest and largest time seen. */
  lemma AverageStepBounds(prev: nat, n: nat, x: nat, lo: nat, hi: nat)
    requires lo <= prev <= hi && lo <= x <= hi
    ensures lo <= (prev * n + x) / (n + 1) <= hi
  {
    MulMonotone(lo, prev, n);
    MulMonotone(prev, hi, n);
    assert lo * (n + 1) == lo * n + lo && hi * (n + 1) == hi * n + hi;
    DivBounds(prev * n + x, n + 1, lo, hi);
  }

  /**
   * `averageTime` after the response times `times`, each step being
   * `(averageTime*(iterations-1) + responseTime) / iterations`; Go's division
   * truncates, which on these non-negative values rounds down.
   */
  function RunningAverage(times: seq<nat>): (avg: nat)
    ensures |times| == 1 ==> avg == times[0]
    ensures |times| > 0 ==> MinOf(times) <= avg <= MaxOf(times)
    decreases |times|
  {
    if times == [] then 0
    else
      var n := |times| - 1;
      var prev := RunningAverage(times[..n]);
      if n == 0 then
        (prev * n + times[n]) / (n + 1)
      else
        var lo, hi := MinOf(times), MaxOf(times);
        assert times[..n][..n - 1] == times[..n - 1];
        AverageStepBounds(prev, n, times[n], lo, hi);
        (prev * n + times[n]) / (n + 1)
  }

  /** The package-level variables `play` updates; `times` lists the response times counted so far. */
  class Globals {
    var averageTime: int
    var iterations: int
    var userSucceeded: bool
    var responseTime: int
    ghost var times: seq<nat>

    ghost predicate Valid()
      reads this
    {
      iterations == |times| && averageTime == RunningAverage(times) && responseTime >= 0
    }

    /** The zero values the program starts with. */
    constructor ()
      ensures Valid() && times == []
      ensures iterations == 0 && averageTime == 0 && !userSucceeded && responseTime == 0
    {
      averageTime, iterations, userSucceeded, responseTime := 0, 0, false, 0;
      times := [];
    }

    /** `iterations++` and the average update, counting the current `responseTime`. */
    method CountIteration()
      requires Valid()
      modifies this
      ensures Valid() && times == old(times) + [old(responseTime)]
      ensures iterations == old(iterations) + 1
      ensures averageTime == (old(averageTime) * (iterations - 1) + responseTime) / iterations
      ensures userSucceeded == old(userSucceeded) && responseTime == old(responseTime)
    {
      assert (times + [responseTime])[..|times|] == times;
      iterations := iterations + 1;
      averageTime := (averageTime * (iterations - 1) + responseTime) / iterations;
      times := times + [responseTime];
    }
  }

  // ---------------------------------------------------------------------------
  // `play`
  // ---------------------------------------------------------------------------

  /** What one iteration of `play` consumes from the environment. */
  datatype Turn = Turn(mixDraw: Int63, intnDraw: nat, line: string, responseTime: nat)

  /** How `play` ends, with the response times of the counted iterations. */
  datatype PlayEnd =
    | Lost(times: seq<nat>)
      /** An interrupt after the given iterations: `goodbye` from the signal handler. */
    | Interrupted(times: seq<nat>)
      /** `rand.Intn` panicked on a maximum that is not positive. */
    | Panicked(times: seq<nat>)

  predicate KnownMode(gameMode: string) {
    gameMode == MIX || gameMode == DEC || gameMode == HEX
  }

  /** The case of the `switch` of `play` that a mode selects; `NoCase` when none does. */
  datatype Case = Mix | Dec | Hex | NoCase

  /**
   * The mode compared with the three constants.  `gameMode` never changes
   * during `play`, so every iteration takes the same case.
   */
  function CaseOf(gameMode: string): (c: Case)
    ensures c == NoCase <==> !KnownMode(gameMode)
  {
    if gameMode == MIX then Mix
    else if gameMode == DEC then Dec
    else if gameMode == HEX then Hex
    else NoCase
  }

  /** `playIterations(top, hexTodec)`: whether the reply was right, and its time; None for a panic. */
  function PlayIterations(top: int, hexToDec: bool, turn: Turn): Option<(bool, nat)> {
    match RandomInt(0, top, turn.intnDraw)
    case None => None
    case Some(n) => Some((CheckAnswer(n, hexToDec, ReplyFromLine(turn.line)), turn.responseTime))
  }

  /**
   * `playIterations` panics exactly when the maximum is not positive; otherwise
   * it reports the turn's time, and success exactly when the reply names the
   * drawn challenge.
   */
  lemma PlayIterationsOutcome(top: int, hexToDec: bool, turn: Turn)
    ensures var r := PlayIterations(top, hexToDec, turn);
            (r.None? <==> top <= 0) &&
            (r.Some? ==> r.value.1 == turn.responseTime) &&
            (r.Some? ==> (r.value.0 <==> ReplyValue(ReplyFromLine(turn.line), hexToDec) == turn.intnDraw % top))
  {
  }

  /**
   * The `switch` of `play`: `(userSucceeded, responseTime)` after it.  When no
   * case matches both stay as they were.
   */
  function Iteration(maxNumber: int, c: Case, turn: Turn, succeeded: bool, responseTime: nat)
    : Option<(bool, nat)>
  {
    match c
    case Mix => PlayIterations(maxNumber, Bit(turn.mixDraw, 1), turn)
    case Dec => PlayIterations(maxNumber, false, turn)
    case Hex => PlayIterations(maxNumber, true, turn)
    case NoCase => Some((succeeded, responseTime))
  }

  /**
   * An iteration panics exactly in a matched case with a maximum that is not
   * positive; a matched case takes the turn's time, no case changes nothing.
   */
  lemma IterationOutcome(maxNumber: int, c: Case, turn: Turn, succeeded: bool, responseTime: nat)
    ensures var r := Iteration(maxNumber, c, turn, succeeded, responseTime);
            (r.None? <==> c != NoCase && maxNumber <= 0) &&
            (c != NoCase && r.Some? ==> r.value.1 == turn.responseTime) &&
            (c == NoCase ==> r == Some((succeeded, responseTime)))
  {
    match c
    case Mix => PlayIterationsOutcome(maxNumber, Bit(turn.mixDraw, 1), turn);
    case Dec => PlayIterationsOutcome(maxNumber, false, turn);
    case Hex => PlayIterationsOutcome(maxNumber, true, turn);
    case NoCase =>
  }

  /** The loop of `play` from turn `i` on, with the globals' values and the times counted so far. */
  function PlayFrom(maxNumber: int, c: Case, turns: seq<Turn>, i: nat,
                    succeeded: bool, responseTime: nat, times: seq<nat>): PlayEnd
    requires i <= |turns|
    decreases |turns| - i
  {
    if i == |turns| then Interrupted(times)
    else
      var step := Iteration(maxNumber, c, turns[i], succeeded, responseTime);
      if step.None? then Panicked(times)
      else
        var (ok, rt) := step.value;
        if !ok then Lost(times + [rt])
        else PlayFrom(maxNumber, c, turns, i + 1, ok, rt, times + [rt])
  }

  /**
   * The `switch` of `play` as the program runs it: the mode is compared with
   * the constants, and the mixed mode asks a fresh generator for the direction.
   */
  method RunIteration(maxNumber: int, gameMode: string, turn: Turn, succeeded: bool, responseTime: nat)
    returns (outcome: Option<(bool, nat)>)
    ensures outcome == Iteration(maxNumber, CaseOf(gameMode), turn, succeeded, responseTime)
  {
    if gameMode == MIX {
      var hexToDec := MixedDirection(turn.mixDraw);
      outcome := PlayIterations(maxNumber, hexToDec, turn);
    } else if gameMode == DEC {
      outcome := PlayIterations(maxNumber, false, turn);
    } else if gameMode == HEX {
      outcome := PlayIterations(maxNumber, true, turn);
    } else {
      outcome := Some((succeeded, responseTime));
    }
  }

  /** One pass of the loop of `play`, by the outcome of its `switch`. */
  lemma PlayFromStep(maxNumber: int, c: Case, turns: seq<Turn>, i: nat,
                     succeeded: bool, responseTime: nat, times: seq<nat>)
    requires i < |turns|
    ensures var step := Iteration(maxNumber, c, turns[i], succeeded, responseTime);
            var here := PlayFrom(maxNumber, c, turns, i, succeeded, responseTime, times);
            (step.None? ==> here == Panicked(times)) &&
            (step.Some? && !step.value.0 ==> here == Lost(times + [step.value.1])) &&
            (step.Some? && step.value.0 ==>
               here == PlayFrom(maxNumber, c, turns, i + 1, true, step.value.1, times + [step.value.1]))
  {
  }

  /**
   * Each turn counts at most one time and the loop only appends to `times`;
   * an interrupt after the last turn has counted one time per turn, and a
   * lost game has counted the iteration it was lost on.
   */
  lemma {:induction false} PlayExtendsTimes(maxNumber: int, c: Case, turns: seq<Turn>, i: nat,
                                            succeeded: bool, responseTime: nat, times: seq<nat>)
    requires i <= |turns|
    ensures var end := PlayFrom(maxNumber, c, turns, i, succeeded, responseTime, times);
            times <= end.times && |end.times| <= |times| + (|turns| - i) &&
            (end.Interrupted? ==> |end.times| == |times| + (|turns| - i)) &&
            (end.Lost? ==> |end.times| > |times|)
    decreases |turns| - i
  {
    if i < |turns| {
      var step := Iteration(maxNumber, c, turns[i], succeeded, responseTime);
      PlayFromStep(maxNumber, c, turns, i, succeeded, responseTime, times);
      if step.Some? {
        var ok, rt := step.value.0, step.value.1;
        if ok {
          PlayExtendsTimes(maxNumber, c, turns, i + 1, ok, rt, times + [rt]);
        }
      }
    }
  }

  /** One pass of the loop of `play`: the `switch`, then the count; None where `rand.Intn` panics. */
  method PlayTurn(g: Globals, maxNumber: int, gameMode: string, turn: Turn) returns (step: Option<(bool, nat)>)
    requires g.Valid()
    modifies g
    ensures step == Iteration(maxNumber, CaseOf(gameMode), turn, old(g.userSucceeded), old(g.responseTime))
    ensures step.None? ==> unchanged(g)
    ensures step.Some? ==> g.Valid() && g.times == old(g.times) + [step.value.1] &&
                           g.userSucceeded == step.value.0 && g.responseTime == step.value.1
  {
    step := RunIteration(maxNumber, gameMode, turn, g.userSucceeded, g.responseTime);
    if step.Some? {
      g.userSucceeded, g.responseTime := step.value.0, step.value.1;
      g.CountIteration();
    }
  }

  /** `play` as the program runs it; also returns the final `iterations` and `averageTime`. */
  method Play(maxNumber: int, gameMode: string, turns: seq<Turn>)
    returns (end: PlayEnd, iterations: int, averageTime: int)
    ensures end == PlayFrom(maxNumber, CaseOf(gameMode), turns, 0, false, 0, [])
    ensures iterations == |end.times| && averageTime == RunningAverage(end.times)
  {
    ghost var c := CaseOf(gameMode);
    var g := new Globals();
    var times: seq<nat> := [];
    var i := 0;
    while i < |turns|
      invariant 0 <= i <= |turns|
      invariant g.Valid() && g.times == times
      invariant PlayFrom(maxNumber, c, turns, 0, false, 0, [])
             == PlayFrom(maxNumber, c, turns, i, g.userSucceeded, g.responseTime, times)
      decreases |turns| - i
    {
      PlayFromStep(maxNumber, c, turns, i, g.userSucceeded, g.responseTime, times);
      var step := PlayTurn(g, maxNumber, gameMode, turns[i]);
      if step.None? {
        return Panicked(times), g.iterations, g.averageTime;
      }
      times := times + [step.value.1];
      if !step.value.0 {
        return Lost(times), g.iterations, g.averageTime;
      }
      i := i + 1;
    }
    return Interrupted(times), g.iterations, g.averageTime;
  }

  /** `main`: `welcome`, then `play`; None where `welcome` is fatal. */
  method Run(maxLine: string, modeLine: string, turns: seq<Turn>) returns (end: Option<PlayEnd>)
    ensures end.None? <==> Welcome(maxLine, modeLine).None?
    ensures end.Some? ==>
              var settings := Welcome(maxLine, modeLine).value;
              end.value == PlayFrom(settings.0, CaseOf(settings.1), turns, 0, false, 0, [])
  {
    var settings := Welcome(maxLine, modeLine);
    if settings.None? {
      return None;
    }
    var played, iterations, averageTime := Play(settings.value.0, settings.value.1, turns);
    return Some(played);
  }

  // ---------------------------------------------------------------------------
  // Properties of `play`
  // ---------------------------------------------------------------------------

  /** With an unknown mode `userSucceeded` stays false: one iteration is counted, with time 0, and the game is lost. */
  lemma UnknownModeEndsAfterOneIteration(maxNumber: int, gameMode: string, turns: seq<Turn>)
    requires !KnownMode(gameMode) && |turns| > 0
    ensures PlayFrom(maxNumber, CaseOf(gameMode), turns, 0, false, 0, []) == Lost([0])
  {
  }

  /** The k-th counted time is the k-th turn's response time. */
  predicate TimesOfTurns(times: seq<nat>, turns: seq<Turn>) {
    |times| <= |turns| && forall k :: 0 <= k < |times| ==> times[k] == turns[k].responseTime
  }

  lemma TimesOfTurnsExtend(times: seq<nat>, turns: seq<Turn>, rt: nat)
    requires TimesOfTurns(times, turns) && |times| < |turns| && rt == turns[|times|].responseTime
    ensures TimesOfTurns(times + [rt], turns)
  {
    var counted := times + [rt];
    forall k | 0 <= k < |counted|
      ensures counted[k] == turns[k].responseTime
    {
      if k < |times| {
        assert counted[k] == times[k];
      }
    }
  }

  /** In a known mode every iteration counts its own turn's response time. */
  lemma {:induction false} IterationsCountTurns(maxNumber: int, c: Case, turns: seq<Turn>, i: nat,
                                                succeeded: bool, responseTime: nat, times: seq<nat>)
    requires c != NoCase && i <= |turns| && |times| == i && TimesOfTurns(times, turns)
    ensures var end := PlayFrom(maxNumber, c, turns, i, succeeded, responseTime, times);
            TimesOfTurns(end.times, turns)
    decreases |turns| - i
  {
    if i < |turns| {
      var step := Iteration(maxNumber, c, turns[i], succeeded, responseTime);
      IterationOutcome(maxNumber, c, turns[i], succeeded, responseTime);
      PlayFromStep(maxNumber, c, turns, i, succeeded, responseTime, times);
      if step.Some? {
        var ok, rt := step.value.0, step.value.1;
        var counted := times + [rt];
        TimesOfTurnsExtend(times, turns, rt);
        if ok {
          IterationsCountTurns(maxNumber, c, turns, i + 1, ok, rt, counted);
        }
      }
    }
  }

  /** A maximum that is not positive makes the first iteration of a known mode panic. */
  lemma NonPositiveMaxPanics(maxNumber: int, gameMode: string, turns: seq<Turn>)
    requires maxNumber <= 0 && KnownMode(gameMode) && |turns| > 0
    ensures PlayFrom(maxNumber, CaseOf(gameMode), turns, 0, false, 0, []) == Panicked([])
  {
  }
}
