/**
 * The Rust version of the quiz (hexdec.rs).
 *
 * The player sets a maximum value and a game mode, from `--max-number` and
 * `--game-mode` arguments or from prompts that repeat until a usable value is
 * typed; then each round draws a challenge in [0, max), shows it in one radix,
 * reads the answer in the other, counts the round and its response time, and the
 * game ends at the first wrong answer with a report of the average time.
 *
 * The mode is kept, as in the program, as the radix the answer is read in:
 * 16 for "d2x", 10 for "x2d", 1 for "both" (decided in the first round) and 0
 * for "unset".  The environment enters as values: the argument vector, the lines
 * typed on standard input, `draw(k)` for the k-th sample of the challenge
 * distribution and `elapsed(i)` for the milliseconds round i took.
 */
module HexdecRs {
  import opened Wrappers
  import opened Numerals

  // ---------------------------------------------------------------------------
  // Parsing integers
  // ---------------------------------------------------------------------------

  /**
   * `i64::from_str_radix(s, radix)`, which `str::parse::<i64>` also is in radix
   * 10: an optional `+` or `-`, then at least one digit of the radix in either
   * case, and a value that fits in 64 bits.
   */
  function FromStrRadix(s: string, radix: nat): (r: Option<int>)
    requires 2 <= radix <= 36
    ensures r.Some? ==> InI64(r.value)
  {
    if s == [] then None
    else
      var digits := if s[0] == '+' || s[0] == '-' then s[1..] else s;
      if digits == [] || !AllDigits(digits, radix) then None
      else
        var magnitude: int := DigitsValue(digits, radix);
        var v := if s[0] == '-' then -magnitude else magnitude;
        if InI64(v) then Some(v) else None
  }

  /** Any 64-bit value written out in a radix parses back to itself. */
  lemma FromStrRadixReadsSignedDigits(v: int, radix: nat)
    requires 2 <= radix <= 36 && InI64(v)
    ensures FromStrRadix(SignedDigits(v, radix), radix) == Some(v)
  {
  }

  // ---------------------------------------------------------------------------
  // The two settings
  // ---------------------------------------------------------------------------

  /**
   * `set_max`: the empty string means the default 256, a decimal i64 means
   * itself (0 and negative values included), and anything else is reported and
   * gives 0, "unset".
   */
  function SetMax(input: string): (max: int)
    ensures InI64(max)
    ensures input == "" ==> max == 256
    ensures max != 0 <==> input == "" || (FromStrRadix(input, 10).Some? && FromStrRadix(input, 10).value != 0)
  {
    match FromStrRadix(input, 10)
    case Some(value) => value
    case None => if input == "" then 256 else 0
  }

  /** Every 64-bit integer written in decimal sets the maximum to itself. */
  lemma SetMaxReadsDecimal(v: int)
    requires InI64(v)
    ensures SetMax(SignedDigits(v, 10)) == v
  {
    FromStrRadixReadsSignedDigits(v, 10);
  }

  /** `set_mode`: the radix answers are read in, 1 for the mixed mode, 0 for an unknown token. */
  function SetMode(input: string): (base: int)
    ensures base in {0, 1, 10, 16}
    ensures base == 16 <==> input == "d2x"
    ensures base == 10 <==> input == "x2d" || input == ""
    ensures base == 1 <==> input == "both"
  {
    match input
    case "d2x" => 16
    case "x2d" => 10
    case "both" => 1
    case "" => 10
    case _ => 0
  }

  // ---------------------------------------------------------------------------
  // The argument scan
  // ---------------------------------------------------------------------------

  datatype ScanResult =
    | Scanned(max: int, base: nat)
      /** A flag in the last position: `args[i + 1]` indexes past the end and panics. */
    | MissingValue

  /**
   * The scan of `args` from index `i` on, with the settings found so far: each
   * flag takes the next argument as its value, anything else is skipped.
   */
  function ScanFrom(args: seq<string>, i: nat, max: int, base: nat): (r: ScanResult)
    ensures r.Scanned? && base in {0, 1, 10, 16} ==> r.base in {0, 1, 10, 16}
    decreases |args| - i
  {
    if i >= |args| then Scanned(max, base)
    else if args[i] == "--max-number" then
      if i + 1 < |args| then ScanFrom(args, i + 2, SetMax(args[i + 1]), base) else MissingValue
    else if args[i] == "--game-mode" then
      if i + 1 < |args| then ScanFrom(args, i + 2, max, SetMode(args[i + 1])) else MissingValue
    else ScanFrom(args, i + 1, max, base)
  }

  predicate IsFlag(arg: string) {
    arg == "--max-number" || arg == "--game-mode"
  }

  /** The argument loop of `main`; `args[0]` is the program name. */
  method ScanArgs(args: seq<string>) returns (r: ScanResult)
    ensures r == ScanFrom(args, 1, 0, 0)
  {
    var max: int, base: nat := 0, 0;
    if |args| > 1 {
      var i := 1;
      while i < |args|
        invariant 1 <= i <= |args|
        invariant ScanFrom(args, 1, 0, 0) == ScanFrom(args, i, max, base)
        decreases |args| - i
      {
        if args[i] == "--max-number" {
          if i + 1 == |args| { return MissingValue; }
          max := SetMax(args[i + 1]);
          i := i + 1;
        } else if args[i] == "--game-mode" {
          if i + 1 == |args| { return MissingValue; }
          base := SetMode(args[i + 1]);
          i := i + 1;
        }
        i := i + 1;
      }
    }
    return Scanned(max, base);
  }

  /** A scan that gets through `a` carries its settings on into whatever follows `a`. */
  lemma {:induction false} ScanConcat(a: seq<string>, c: seq<string>, i: nat, max: int, base: nat)
    requires i <= |a| && ScanFrom(a, i, max, base).Scanned?
    ensures ScanFrom(a + c, i, max, base)
         == ScanFrom(a + c, |a|, ScanFrom(a, i, max, base).max, ScanFrom(a, i, max, base).base)
    decreases |a| - i
  {
    if i < |a| {
      assert (a + c)[i] == a[i];
      if IsFlag(a[i]) {
        assert (a + c)[i + 1] == a[i + 1];
        if a[i] == "--max-number" {
          ScanConcat(a, c, i + 2, SetMax(a[i + 1]), base);
        } else {
          ScanConcat(a, c, i + 2, max, SetMode(a[i + 1]));
        }
      } else {
        ScanConcat(a, c, i + 1, max, base);
      }
    }
  }

  /** A flag given again later overrides the earlier value; the other setting is kept. */
  lemma LaterFlagOverrides(a: seq<string>, flag: string, value: string)
    requires |a| >= 1 && ScanFrom(a, 1, 0, 0).Scanned? && IsFlag(flag)
    ensures var before := ScanFrom(a, 1, 0, 0);
            ScanFrom(a + [flag, value], 1, 0, 0)
            == if flag == "--max-number" then Scanned(SetMax(value), before.base)
               else Scanned(before.max, SetMode(value))
  {
    ScanConcat(a, [flag, value], 1, 0, 0);
  }

  /** An argument that is not a flag is skipped. */
  lemma UnknownArgumentSkipped(a: seq<string>, arg: string)
    requires |a| >= 1 && ScanFrom(a, 1, 0, 0).Scanned? && !IsFlag(arg)
    ensures ScanFrom(a + [arg], 1, 0, 0) == ScanFrom(a, 1, 0, 0)
  {
    ScanConcat(a, [arg], 1, 0, 0);
  }

  /** A flag in the last position has no value to take. */
  lemma TrailingFlagPanics(a: seq<string>, flag: string)
    requires |a| >= 1 && ScanFrom(a, 1, 0, 0).Scanned? && IsFlag(flag)
    ensures ScanFrom(a + [flag], 1, 0, 0) == MissingValue
  {
    ScanConcat(a, [flag], 1, 0, 0);
  }

  // ---------------------------------------------------------------------------
  // Re-prompting for a setting
  // ---------------------------------------------------------------------------

  /**
   * `while value == 0 { value = parse(next line) }` from line `from` on: the
   * setting once it is non-zero and the index of the next unread line, or None
   * when standard input ends first (`unwrap` on a missing line panics).
   */
  function Resolve(value: int, parse: string -> int, lines: seq<string>, from: nat): (r: Option<(int, nat)>)
    requires from <= |lines|
    ensures r.Some? ==> r.value.0 != 0 && from <= r.value.1 <= |lines|
    ensures value != 0 ==> r == Some((value, from))
    ensures value == 0 && r.None? ==> forall j :: from <= j < |lines| ==> parse(lines[j]) == 0
    ensures value == 0 && r.Some? ==>
              from < r.value.1 && parse(lines[r.value.1 - 1]) == r.value.0 &&
              forall j :: from <= j < r.value.1 - 1 ==> parse(lines[j]) == 0
    decreases |lines| - from
  {
    if value != 0 then Some((value, from))
    else if from == |lines| then None
    else Resolve(parse(lines[from]), parse, lines, from + 1)
  }

  /** The re-prompt loops `while max == 0` and `while base == 0`. */
  method ResolveSetting(initial: int, parse: string -> int, lines: seq<string>, from: nat)
    returns (r: Option<(int, nat)>)
    requires from <= |lines|
    ensures r == Resolve(initial, parse, lines, from)
  {
    var value, next := initial, from;
    while value == 0
      invariant from <= next <= |lines|
      invariant Resolve(initial, parse, lines, from) == Resolve(value, parse, lines, next)
      decreases |lines| - next
    {
      if next == |lines| { return None; }
      value := parse(lines[next]);
      next := next + 1;
    }
    return Some((value, next));
  }

  /** A "0" line re-prompts exactly as a line that is not a number does. */
  lemma ZeroRepromptsLikeInvalid(lines: seq<string>, from: nat)
    requires from < |lines|
    requires lines[from] == "0" || (lines[from] != "" && FromStrRadix(lines[from], 10).None?)
    ensures Resolve(0, SetMax, lines, from) == Resolve(0, SetMax, lines, from + 1)
  {
    assert SetMax(lines[from]) == 0 by {
      if lines[from] == "0" {
        assert FromStrRadix("0", 10) == Some(0) by {
          assert "0"[..0] == [];
        }
      }
    }
  }

  // ---------------------------------------------------------------------------
  // One round
  // ---------------------------------------------------------------------------

  /**
   * Rust's `%` on i64, the remainder of division truncated toward zero: it
   * differs from `a` by a multiple of `b`, stays below `b` in magnitude and has
   * the sign of the dividend.
   */
  function RustRem(a: int, b: int): (r: int)
    requires b > 0
    ensures (a - r) % b == 0
    ensures -b < r < b
    ensures a >= 0 ==> r >= 0
    ensures a < 0 ==> r <= 0
  {
    var n := if a >= 0 then a else -a;
    var q, m := n / b, n % b;
    assert n == b * q + m;
    var r := if a >= 0 then m else -m;
    var k := if a >= 0 then q else -q;
    assert a - r == b * k;
    DivModUnique(a - r, b, k, 0);
    r
  }

  /**
   * The base the mixed mode settles on: 16 for an odd sample, 10 for an even
   * one; None is the `panic!()` arm, which only a negative odd sample reaches.
   */
  function MixedBase(sample: int): (base: Option<nat>)
    ensures base.Some? ==> base.value in {10, 16}
    ensures sample >= 0 ==> base.Some? && (base.value == 16 <==> sample % 2 == 1)
    ensures base.None? <==> sample < 0 && sample % 2 == 1
  {
    match RustRem(sample, 2)
    case 1 => Some(16)
    case 0 => Some(10)
    case _ => None
  }

  /** The challenge as the prompt shows it: decimal when the answer is read in hex, `0x` and hex otherwise. */
  function Display(choice: nat, base: nat): (shown: string)
    requires base in {10, 16}
    ensures base == 16 ==> AllDigits(shown, 10) && DigitsValue(shown, 10) == choice &&
                           (|shown| > 1 ==> shown[0] != '0')
    ensures base == 10 ==> |shown| > 2 && shown[..2] == "0x" &&
                           AllDigits(shown[2..], 16) && DigitsValue(shown[2..], 16) == choice &&
                           Lowercase(shown[2..]) && (|shown| > 3 ==> shown[2] != '0')
  {
    if base == 16 then ToDigits(choice, 10)
    else
      var digits := ToDigits(choice, 16);
      ToDigitsLowercase(choice, 16);
      assert ("0x" + digits)[2..] == digits;
      "0x" + digits
  }

  /** The challenge written in the round's radix, the reply the prompt asks for, is read back as the challenge. */
  lemma ReplyRoundTrip(choice: nat, base: nat)
    requires base in {10, 16} && choice <= I64_MAX
    ensures FromStrRadix(ToDigits(choice, base), base) == Some(choice)
  {
    FromStrRadixReadsSignedDigits(choice, base);
  }

  /**
   * The answer loop `'input2` from line `from`: the parsed answer and the index
   * of the next unread line, or None when standard input ends first.  A line
   * that does not parse in `base` is skipped, and the same challenge is asked
   * again.  For a base other than 10 and 16 the loop breaks at once with the
   * answer still 0.
   */
  function Answer(base: nat, lines: seq<string>, from: nat): (r: Option<(int, nat)>)
    requires from <= |lines|
    ensures base !in {10, 16} ==> r == Some((0, from))
    ensures base in {10, 16} && r.Some? ==> from < r.value.1 <= |lines|
    decreases |lines| - from
  {
    if base != 10 && base != 16 then Some((0, from))
    else if from == |lines| then None
    else
      var z := FromStrRadix(lines[from], base);
      if z.Some? then Some((z.value, from + 1)) else Answer(base, lines, from + 1)
  }

  /**
   * The answer is taken from the first line at or after `from` that parses in
   * the round's radix; every line before it was malformed, and when there is
   * none every remaining line was.
   */
  lemma {:induction false} AnswerIsFirstParsableLine(base: nat, lines: seq<string>, from: nat)
    requires base in {10, 16} && from <= |lines|
    ensures var r := Answer(base, lines, from);
            (r.None? ==> forall j :: from <= j < |lines| ==> FromStrRadix(lines[j], base).None?) &&
            (r.Some? ==>
               FromStrRadix(lines[r.value.1 - 1], base) == Some(r.value.0) &&
               forall j :: from <= j < r.value.1 - 1 ==> FromStrRadix(lines[j], base).None?)
    decreases |lines| - from
  {
    if from < |lines| && FromStrRadix(lines[from], base).None? {
      AnswerIsFirstParsableLine(base, lines, from + 1);
    }
  }

  /** The answer loop `'input2` as the program runs it. */
  method ReadAnswer(base: nat, lines: seq<string>, from: nat) returns (r: Option<(int, nat)>)
    requires from <= |lines|
    ensures r == Answer(base, lines, from)
  {
    var next := from;
    while true
      invariant from <= next <= |lines|
      invariant Answer(base, lines, from) == Answer(base, lines, next)
      decreases |lines| - next
    {
      if base != 10 && base != 16 { return Some((0, next)); }
      if next == |lines| { return None; }
      var z := FromStrRadix(lines[next], base);
      next := next + 1;
      if z.Some? { return Some((z.value, next)); }
    }
  }

  // ---------------------------------------------------------------------------
  // Session statistics and the closing report
  // ---------------------------------------------------------------------------

  function Sum(s: seq<nat>): nat {
    if s == [] then 0 else Sum(s[..|s| - 1]) + s[|s| - 1]
  }

  /**
   * The two shared counters of scored rounds and their total time in
   * milliseconds (`count` and `total_time`); `times` lists the rounds' times.
   */
  class SessionStats {
    var count: nat
    var totalTime: nat
    ghost var times: seq<nat>

    ghost predicate Valid()
      reads this
    {
      count == |times| && totalTime == Sum(times)
    }

    constructor ()
      ensures Valid() && times == []
    {
      count, totalTime, times := 0, 0, [];
    }

    /** `total_time.fetch_add(time)` then `count.fetch_add(1)`. */
    method RecordRound(ms: nat)
      requires Valid()
      modifies this
      ensures Valid() && times == old(times) + [ms]
      ensures count == old(count) + 1 && totalTime == old(totalTime) + ms
    {
      assert (times + [ms])[..|times|] == times;
      totalTime := totalTime + ms;
      count := count + 1;
      times := times + [ms];
    }
  }

  datatype Summary = Summary(count: nat, average: nat, secs: nat, millis: nat)

  /**
   * The arithmetic of `goodbye`: the average time per round, rounded down, 0
   * when no round was played, then split into seconds and milliseconds.
   */
  function Goodbye(count: nat, totalTime: nat): (s: Summary)
    ensures s.count == count
    ensures count == 0 ==> s.average == 0
    ensures count > 0 ==> s.average * count <= totalTime < (s.average + 1) * count
    ensures s.secs * 1000 + s.millis == s.average && s.millis < 1000
  {
    var avg := if count > 0 then totalTime / count else 0;
    var secs := avg / 1000;
    Summary(count, avg, secs, avg - secs * 1000)
  }

  // ---------------------------------------------------------------------------
  // The game loop
  // ---------------------------------------------------------------------------

  /** A scored round: the challenge, the radix of the answer, the answer and the time it took. */
  datatype Round = Round(choice: int, base: nat, answer: int, elapsed: nat)

  predicate Won(r: Round) {
    r.choice == r.answer
  }

  predicate AllWon(trace: seq<Round>) {
    forall i :: 0 <= i < |trace| ==> Won(trace[i])
  }

  predicate AllInBase(trace: seq<Round>, base: nat) {
    forall i :: 0 <= i < |trace| ==> trace[i].base == base
  }

  predicate ChallengesBelow(trace: seq<Round>, max: int) {
    forall i :: 0 <= i < |trace| ==> 0 <= trace[i].choice < max
  }

  /** Every round is won except the last one, which is lost exactly when `lost` holds. */
  predicate OnlyLastLost(trace: seq<Round>, lost: bool) {
    (lost ==> |trace| > 0) &&
    forall i :: 0 <= i < |trace| ==> (Won(trace[i]) <==> !(lost && i == |trace| - 1))
  }

  /** Round i of the game took `elapsed(i)` milliseconds. */
  predicate TimedInOrder(trace: seq<Round>, elapsed: nat -> nat) {
    forall i :: 0 <= i < |trace| ==> trace[i].elapsed == elapsed(i)
  }

  /** How the loop ends, with the rounds scored until then. */
  datatype GameEnd =
    | Lost(trace: seq<Round>)
      /** Standard input ended while an answer was awaited. */
    | InputEnded(trace: seq<Round>)
      /** The `panic!()` arm of the mixed-mode choice. */
    | SamplePanic(trace: seq<Round>)

  /** The rounds' times, in order. */
  function ElapsedTimes(trace: seq<Round>): (times: seq<nat>)
    ensures |times| == |trace| && forall i :: 0 <= i < |trace| ==> times[i] == trace[i].elapsed
  {
    seq(|trace|, i requires 0 <= i < |trace| => trace[i].elapsed)
  }

  /** The time of all rounds in `trace` together. */
  function TotalElapsed(trace: seq<Round>): nat {
    Sum(ElapsedTimes(trace))
  }

  /**
   * The loop from line `pos`, after `drawn` samples and the rounds `trace`:
   * draw a challenge; in the mixed mode draw again to fix the base for good;
   * read an answer; count the round; go on if it was right.
   */
  function GameFrom(base: nat, draw: nat -> int, elapsed: nat -> nat, lines: seq<string>,
                    pos: nat, drawn: nat, trace: seq<Round>): (r: GameEnd)
    requires base in {1, 10, 16} && pos <= |lines|
    decreases |lines| - pos
  {
    var choice := draw(drawn);
    var chosen := if base == 1 then MixedBase(draw(drawn + 1)) else Some(base);
    var used := if base == 1 then drawn + 2 else drawn + 1;
    if chosen.None? then SamplePanic(trace)
    else
      var b := chosen.value;
      match Answer(b, lines, pos)
      case None => InputEnded(trace)
      case Some((answer, next)) =>
        var round := Round(choice, b, answer, elapsed(|trace|));
        if choice == answer then GameFrom(b, draw, elapsed, lines, next, used, trace + [round])
        else Lost(trace + [round])
  }

  /** The game loop of `main`, counting rounds in a `SessionStats`. */
  method RunGame(base0: nat, draw: nat -> int, elapsed: nat -> nat, lines: seq<string>, from: nat)
    returns (end: GameEnd, count: nat, totalTime: nat)
    requires base0 in {1, 10, 16} && from <= |lines|
    ensures end == GameFrom(base0, draw, elapsed, lines, from, 0, [])
    ensures count == |end.trace| && totalTime == TotalElapsed(end.trace)
  {
    var stats := new SessionStats();
    var base, pos, drawn, trace := base0, from, 0, [];
    while true
      invariant base in {1, 10, 16} && pos <= |lines|
      invariant stats.Valid() && stats.times == ElapsedTimes(trace)
      invariant GameFrom(base0, draw, elapsed, lines, from, 0, [])
             == GameFrom(base, draw, elapsed, lines, pos, drawn, trace)
      decreases |lines| - pos
    {
      var choice := draw(drawn);
      drawn := drawn + 1;
      if base == 1 {
        var chosen := MixedBase(draw(drawn));
        drawn := drawn + 1;
        if chosen.None? {
          return SamplePanic(trace), stats.count, stats.totalTime;
        }
        base := chosen.value;
      }
      var reply := ReadAnswer(base, lines, pos);
      if reply.None? {
        return InputEnded(trace), stats.count, stats.totalTime;
      }
      var (answer, next) := reply.value;
      var ms := elapsed(stats.count);
      stats.RecordRound(ms);
      assert (trace + [Round(choice, base, answer, ms)])[..|trace|] == trace;
      assert ElapsedTimes(trace + [Round(choice, base, answer, ms)]) == ElapsedTimes(trace) + [ms];
      trace := trace + [Round(choice, base, answer, ms)];
      pos := next;
      if choice != answer {
        return Lost(trace), stats.count, stats.totalTime;
      }
    }
  }

  /**
   * A round whose answer line parses to `v` in the round's base `b` (the
   * configured one, or in the mixed mode the one the second sample picks):
   * the round is counted with the challenge, `b`, `v` and the time
   * `elapsed(|trace|)`; the game goes on, in base `b` and after the samples
   * the round drew, exactly when `v` is the challenge.
   */
  lemma ReplyDecidesRound(base: nat, draw: nat -> int, elapsed: nat -> nat, lines: seq<string>,
                          pos: nat, drawn: nat, trace: seq<Round>, v: int)
    requires base in {1, 10, 16} && pos < |lines|
    requires var b := if base == 1 then MixedBase(draw(drawn + 1)) else Some(base);
             b.Some? && FromStrRadix(lines[pos], b.value) == Some(v)
    ensures var b := if base == 1 then MixedBase(draw(drawn + 1)).value else base;
            var used := if base == 1 then drawn + 2 else drawn + 1;
            var round := Round(draw(drawn), b, v, elapsed(|trace|));
            GameFrom(base, draw, elapsed, lines, pos, drawn, trace)
            == if v == draw(drawn) then GameFrom(b, draw, elapsed, lines, pos + 1, used, trace + [round])
               else Lost(trace + [round])
  {
  }

  /** Typing the challenge in the round's radix wins the round. */
  lemma CorrectReplyWins(base: nat, draw: nat -> int, elapsed: nat -> nat, lines: seq<string>,
                         pos: nat, drawn: nat, trace: seq<Round>)
    requires base in {1, 10, 16} && pos < |lines| && 0 <= draw(drawn) <= I64_MAX
    requires var b := if base == 1 then MixedBase(draw(drawn + 1)) else Some(base);
             b.Some? && lines[pos] == ToDigits(draw(drawn), b.value)
    ensures var b := if base == 1 then MixedBase(draw(drawn + 1)).value else base;
            var used := if base == 1 then drawn + 2 else drawn + 1;
            var choice := draw(drawn);
            GameFrom(base, draw, elapsed, lines, pos, drawn, trace)
            == GameFrom(b, draw, elapsed, lines, pos + 1, used,
                        trace + [Round(choice, b, choice, elapsed(|trace|))])
  {
    var b := if base == 1 then MixedBase(draw(drawn + 1)).value else base;
    ReplyRoundTrip(draw(drawn), b);
  }

  /**
   * A malformed line asks for the same challenge again: nothing is counted or
   * timed for it, and no sample is drawn, so in the mixed mode the base
   * sample is not drawn again either.
   */
  lemma MalformedReplyReprompts(base: nat, draw: nat -> int, elapsed: nat -> nat, lines: seq<string>,
                                pos: nat, drawn: nat, trace: seq<Round>)
    requires base in {1, 10, 16} && pos < |lines|
    requires var b := if base == 1 then MixedBase(draw(drawn + 1)) else Some(base);
             b.Some? && FromStrRadix(lines[pos], b.value).None?
    ensures GameFrom(base, draw, elapsed, lines, pos, drawn, trace)
         == GameFrom(base, draw, elapsed, lines, pos + 1, drawn, trace)
  {
  }

  /** With a fixed base every round is played in it. */
  lemma {:induction false} FixedBaseRounds(base: nat, draw: nat -> int, elapsed: nat -> nat, lines: seq<string>,
                                           pos: nat, drawn: nat, trace: seq<Round>)
    requires base in {10, 16} && pos <= |lines| && AllInBase(trace, base)
    ensures AllInBase(GameFrom(base, draw, elapsed, lines, pos, drawn, trace).trace, base)
    decreases |lines| - pos
  {
    match Answer(base, lines, pos)
    case None =>
    case Some((answer, next)) =>
      var round := Round(draw(drawn), base, answer, elapsed(|trace|));
      assert AllInBase(trace + [round], base);
      if draw(drawn) == answer {
        FixedBaseRounds(base, draw, elapsed, lines, next, drawn + 1, trace + [round]);
      }
  }

  /**
   * All rounds of a game share one base in {10, 16}: the configured one, or in
   * the mixed mode the one the first round's second sample chose.
   */
  lemma BaseSticks(base0: nat, draw: nat -> int, elapsed: nat -> nat, lines: seq<string>, from: nat)
    requires base0 in {1, 10, 16} && from <= |lines|
    ensures var end := GameFrom(base0, draw, elapsed, lines, from, 0, []);
            |end.trace| > 0 ==>
              var b := end.trace[0].base;
              b in {10, 16} && AllInBase(end.trace, b) &&
              (base0 != 1 ==> b == base0) && (base0 == 1 ==> MixedBase(draw(1)) == Some(b))
  {
    if base0 != 1 {
      FixedBaseRounds(base0, draw, elapsed, lines, from, 0, []);
    } else {
      match MixedBase(draw(1))
      case None =>
      case Some(b) =>
        match Answer(b, lines, from)
        case None =>
        case Some((answer, next)) =>
          var round := Round(draw(0), b, answer, elapsed(0));
          assert [] + [round] == [round];
          assert AllInBase([round], b);
          if draw(0) == answer {
            FixedBaseRounds(b, draw, elapsed, lines, next, 2, [round]);
          }
    }
  }

  /**
   * The loop only appends to `trace`, and a lost game has scored at least
   * the round it was lost on.
   */
  lemma {:induction false} GameExtendsTrace(base: nat, draw: nat -> int, elapsed: nat -> nat, lines: seq<string>,
                                            pos: nat, drawn: nat, trace: seq<Round>)
    requires base in {1, 10, 16} && pos <= |lines|
    ensures var end := GameFrom(base, draw, elapsed, lines, pos, drawn, trace);
            trace <= end.trace && (end.Lost? ==> |end.trace| > |trace|)
    decreases |lines| - pos
  {
    var chosen := if base == 1 then MixedBase(draw(drawn + 1)) else Some(base);
    var used := if base == 1 then drawn + 2 else drawn + 1;
    if chosen.Some? {
      var b := chosen.value;
      match Answer(b, lines, pos)
      case None =>
      case Some((answer, next)) =>
        var round := Round(draw(drawn), b, answer, elapsed(|trace|));
        if draw(drawn) == answer {
          GameExtendsTrace(b, draw, elapsed, lines, next, used, trace + [round]);
        }
    }
  }

  /**
   * The game only goes on after a right answer: the rounds it scores are all
   * won except, when it is lost, the last one.
   */
  lemma {:induction false} OnlyTheLastRoundIsLost(base: nat, draw: nat -> int, elapsed: nat -> nat, lines: seq<string>,
                                                  pos: nat, drawn: nat, trace: seq<Round>)
    requires base in {1, 10, 16} && pos <= |lines| && AllWon(trace)
    ensures var end := GameFrom(base, draw, elapsed, lines, pos, drawn, trace);
            OnlyLastLost(end.trace, end.Lost?)
    decreases |lines| - pos
  {
    var chosen := if base == 1 then MixedBase(draw(drawn + 1)) else Some(base);
    var used := if base == 1 then drawn + 2 else drawn + 1;
    if chosen.Some? {
      var b := chosen.value;
      match Answer(b, lines, pos)
      case None =>
      case Some((answer, next)) =>
        var round := Round(draw(drawn), b, answer, elapsed(|trace|));
        if draw(drawn) == answer {
          assert AllWon(trace + [round]) by {
            forall k | 0 <= k < |trace| + 1 ensures Won((trace + [round])[k]) {
              if k < |trace| {
                assert (trace + [round])[k] == trace[k];
              }
            }
          }
          OnlyTheLastRoundIsLost(b, draw, elapsed, lines, next, used, trace + [round]);
        }
    }
  }

  /** Round i is timed by `elapsed(i)`, the i-th time the clock reports. */
  lemma {:induction false} RoundsTimedInOrder(base: nat, draw: nat -> int, elapsed: nat -> nat, lines: seq<string>,
                                              pos: nat, drawn: nat, trace: seq<Round>)
    requires base in {1, 10, 16} && pos <= |lines|
    requires TimedInOrder(trace, elapsed)
    ensures TimedInOrder(GameFrom(base, draw, elapsed, lines, pos, drawn, trace).trace, elapsed)
    decreases |lines| - pos
  {
    var chosen := if base == 1 then MixedBase(draw(drawn + 1)) else Some(base);
    var used := if base == 1 then drawn + 2 else drawn + 1;
    if chosen.Some? {
      var b := chosen.value;
      match Answer(b, lines, pos)
      case None =>
      case Some((answer, next)) =>
        var round := Round(draw(drawn), b, answer, elapsed(|trace|));
        assert TimedInOrder(trace + [round], elapsed);
        if draw(drawn) == answer {
          RoundsTimedInOrder(b, draw, elapsed, lines, next, used, trace + [round]);
        }
    }
  }

  /**
   * When every sample lies in [0, max), so does every challenge, and the
   * `panic!()` arm of the mixed mode is never reached.
   */
  lemma {:induction false} ChallengesInRange(max: int, base: nat, draw: nat -> int, elapsed: nat -> nat,
                                             lines: seq<string>, pos: nat, drawn: nat, trace: seq<Round>)
    requires base in {1, 10, 16} && pos <= |lines|
    requires forall k :: 0 <= draw(k) < max
    requires ChallengesBelow(trace, max)
    ensures var end := GameFrom(base, draw, elapsed, lines, pos, drawn, trace);
            !end.SamplePanic? && ChallengesBelow(end.trace, max)
    decreases |lines| - pos
  {
    assert 0 <= draw(drawn + 1);
    var chosen := if base == 1 then MixedBase(draw(drawn + 1)) else Some(base);
    var used := if base == 1 then drawn + 2 else drawn + 1;
    var b := chosen.value;
    match Answer(b, lines, pos)
    case None =>
    case Some((answer, next)) =>
      var round := Round(draw(drawn), b, answer, elapsed(|trace|));
      assert ChallengesBelow(trace + [round], max);
      if draw(drawn) == answer {
        ChallengesInRange(max, b, draw, elapsed, lines, next, used, trace + [round]);
      }
  }

  /** A mode that leaves its re-prompt loop is a radix or the mixed mode. */
  lemma ResolvedModeIsPlayable(base0: int, lines: seq<string>, from: nat)
    requires base0 in {0, 1, 10, 16} && from <= |lines|
    ensures var r := Resolve(base0, SetMode, lines, from);
            r.Some? ==> r.value.0 in {1, 10, 16}
  {
  }

  // ---------------------------------------------------------------------------
  // The whole program
  // ---------------------------------------------------------------------------

  datatype SessionEnd =
      /** A flag in the last argument position. */
    | MissingArgument
      /** Standard input ended while a setting was still unset. */
    | SetupInputEnded
      /** `Uniform::new(0, max)` panics for a maximum that is not positive. */
    | EmptyRange(max: int)
    | Played(max: int, base: nat, end: GameEnd)

  /**
   * `main`: scan the arguments, prompt for the maximum while it is 0, create the
   * challenge distribution, prompt for the mode while it is 0, then play.
   */
  function Session(args: seq<string>, lines: seq<string>, draw: nat -> int, elapsed: nat -> nat): (r: SessionEnd)
    ensures r.MissingArgument? <==> ScanFrom(args, 1, 0, 0).MissingValue?
    ensures var scan := ScanFrom(args, 1, 0, 0);
            scan.Scanned? ==>
              var max := Resolve(scan.max, SetMax, lines, 0);
              (max.None? ==> r == SetupInputEnded) &&
              (max.Some? && max.value.0 <= 0 ==> r == EmptyRange(max.value.0)) &&
              (max.Some? && max.value.0 > 0 ==>
                 var mode := Resolve(scan.base, SetMode, lines, max.value.1);
                 (mode.None? ==> r == SetupInputEnded) &&
                 (mode.Some? ==> r.Played? && r.max == max.value.0 && r.base == mode.value.0 &&
                                 r.end == GameFrom(r.base, draw, elapsed, lines, mode.value.1, 0, [])))
    ensures r.Played? ==> r.max > 0 && r.base in {1, 10, 16}
  {
    match ScanFrom(args, 1, 0, 0)
    case MissingValue => MissingArgument
    case Scanned(max0, base0) =>
      match Resolve(max0, SetMax, lines, 0)
      case None => SetupInputEnded
      case Some((max, afterMax)) =>
        if max <= 0 then EmptyRange(max)
        else
          ResolvedModeIsPlayable(base0, lines, afterMax);
          match Resolve(base0, SetMode, lines, afterMax)
          case None => SetupInputEnded
          case Some((base, afterMode)) => Played(max, base, GameFrom(base, draw, elapsed, lines, afterMode, 0, []))
  }

  /** In a game that starts, the challenges lie in [0, max) whenever the samples do. */
  lemma SessionChallengesInRange(args: seq<string>, lines: seq<string>, draw: nat -> int, elapsed: nat -> nat)
    requires Session(args, lines, draw, elapsed).Played?
    requires forall k :: 0 <= draw(k) < Session(args, lines, draw, elapsed).max
    ensures var r := Session(args, lines, draw, elapsed);
            !r.end.SamplePanic? && ChallengesBelow(r.end.trace, r.max)
  {
    var scan := ScanFrom(args, 1, 0, 0);
    var afterMax := Resolve(scan.max, SetMax, lines, 0).value.1;
    var settled := Resolve(scan.base, SetMode, lines, afterMax).value;
    ChallengesInRange(Session(args, lines, draw, elapsed).max, settled.0, draw, elapsed, lines, settled.1, 0, []);
  }

  /**
   * `main` as the program runs it; on a lost game it also returns what
   * `goodbye` reports from the counters.
   */
  method RunSession(args: seq<string>, lines: seq<string>, draw: nat -> int, elapsed: nat -> nat)
    returns (r: SessionEnd, summary: Option<Summary>)
    ensures r == Session(args, lines, draw, elapsed)
    ensures summary.Some? <==> r.Played? && r.end.Lost?
    ensures summary.Some? ==> summary.value == Goodbye(|r.end.trace|, TotalElapsed(r.end.trace))
  {
    var scan := ScanArgs(args);
    if scan.MissingValue? {
      return MissingArgument, None;
    }
    var max := ResolveSetting(scan.max, SetMax, lines, 0);
    if max.None? {
      return SetupInputEnded, None;
    }
    var (m, afterMax) := max.value;
    if m <= 0 {
      return EmptyRange(m), None;
    }
    var mode := ResolveSetting(scan.base, SetMode, lines, afterMax);
    ResolvedModeIsPlayable(scan.base, lines, afterMax);
    if mode.None? {
      return SetupInputEnded, None;
    }
    var (base, afterMode) := mode.value;
    var end, count, totalTime := RunGame(base, draw, elapsed, lines, afterMode);
    r := Played(m, base, end);
    summary := if end.Lost? then Some(Goodbye(count, totalTime)) else None;
  }
}
