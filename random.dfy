/** The generators of package random: the bounded int64 generator, the resolution of a
    random_int request into the range it asks for, the tool's paired text/structured
    result, and the printable-ASCII string generator. Entropy comes from the tape of
    module Entropy. */
module Random {
  import opened Outcomes
  import opened Int64
  import opened Decimal
  import opened Entropy

  // ---------------------------------------------------------------------------
  // Bounded integer generator
  // ---------------------------------------------------------------------------

  /** `randomInt64InRange`: a value of the inclusive range [min, max]. The span
      max - min + 1 is computed without a width limit (up to 2^64 for the full
      range), the draw d is taken from [0, span), and min + d is narrowed back to
      int64 as `(*big.Int).Int64` does. */
  function RandomInt64InRange(min: int64, max: int64, tape: Tape): (d: Draw<int64>)
    ensures d.result == Err(InvalidRange) <==> min > max
    ensures d.result.Err? ==> d.result.error == InvalidRange || d.result.error == EntropyFailure
    ensures d.result.Ok? ==> min <= d.result.value <= max
    ensures min <= max ==>
      var u := UniformBelow(max - min + 1, tape);
      (u.result.Ok? ==> d.result == Ok(min + u.result.value)) &&
      (u.result.Err? ==> d.result == Err(EntropyFailure))
    ensures min == max ==> d == Draw(Ok(min), tape)
  {
    if min > max then Draw(Err(InvalidRange), tape)
    else
      var span: nat := max - min + 1;
      var u := UniformBelow(span, tape);
      match u.result
      case Err(e) => Draw(Err(e), u.rest)
      case Ok(offset) =>
        assert IsInt64(min) && IsInt64(max);
        assert min <= min + offset <= max;
        assert IsInt64(min + offset);
        Draw(Ok(Wrap(min + offset)), u.rest)
  }

  /** Every value of a non-empty range is produced by some draw: the single
      candidate value - min. */
  lemma RandomInt64Reaches(min: int64, max: int64, value: int64)
    requires min <= value <= max
    ensures RandomInt64InRange(min, max, [value - min]).result == Ok(value)
  {
  }

  /** Distinct successful draws give distinct values, so the uniform draw over
      [0, span) is carried onto [min, max] one to one. */
  lemma RandomInt64Injective(min: int64, max: int64, t1: Tape, t2: Tape)
    requires min <= max
    requires RandomInt64InRange(min, max, t1).result.Ok?
    requires RandomInt64InRange(min, max, t2).result.Ok?
    requires UniformBelow(max - min + 1, t1).result != UniformBelow(max - min + 1, t2).result
    ensures RandomInt64InRange(min, max, t1).result != RandomInt64InRange(min, max, t2).result
  {
  }

  // ---------------------------------------------------------------------------
  // random_int request resolution
  // ---------------------------------------------------------------------------

  /** An optional tool argument: supplied by the caller or left out. */
  datatype Arg<+T> = Absent | Provided(value: T) {
    function GetOr(default: T): T {
      match this
      case Provided(v) => v
      case Absent => default
    }
  }

  datatype IntArgs = IntArgs(min: Arg<int64>, max: Arg<int64>, includeMin: Arg<bool>, includeMax: Arg<bool>)

  /** The inclusive range the generator is asked for. */
  datatype Bounds = Bounds(lo: int64, hi: int64)

  /** The meaning of a request, stated without the adjustment arithmetic: x is
      admitted when it is an int64 on the right side of each bound. A bound left out
      is 0 or MaxInt64 and its inclusivity flag does not apply. */
  predicate Admits(args: IntArgs, x: int) {
    && IsInt64(x)
    && (match args.min
        case Absent => 0 <= x
        case Provided(m) => if args.includeMin.GetOr(true) then m <= x else m < x)
    && (match args.max
        case Absent => x <= MAX_INT64
        case Provided(m) => if args.includeMax.GetOr(true) then x <= m else x < m)
  }

  /** Exclusion asked of a supplied min that has no int64 above it. */
  predicate MinExhausted(args: IntArgs) {
    args.min == Provided(MAX_INT64) && !args.includeMin.GetOr(true)
  }

  /** Exclusion asked of a supplied max that has no int64 below it. */
  predicate MaxExhausted(args: IntArgs) {
    args.max == Provided(MIN_INT64) && !args.includeMax.GetOr(true)
  }

  /** Defaults, then the exclusivity adjustment of the handler: a supplied, excluded
      bound moves inward by one; an exhausted one is refused, min first. On success
      the inclusive range [lo, hi] holds exactly the admitted values (it may be
      empty: lo > hi). */
  function ResolveIntRange(args: IntArgs): (r: Result<Bounds>)
    ensures r.Err? <==> MinExhausted(args) || MaxExhausted(args)
    ensures r.Err? ==> r.error == (if MinExhausted(args) then MinBoundaryExhausted else MaxBoundaryExhausted)
    ensures r.Err? ==> forall x :: !Admits(args, x)
    ensures r.Ok? ==> forall x :: Admits(args, x) <==> r.value.lo <= x <= r.value.hi
    ensures r.Ok? && args.min.Absent? ==> r.value.lo == 0
    ensures r.Ok? && args.max.Absent? ==> r.value.hi == MAX_INT64
    ensures r.Ok? && args.min.Provided? && !args.includeMin.GetOr(true) ==> r.value.lo == args.min.value + 1
    ensures r.Ok? && args.max.Provided? && !args.includeMax.GetOr(true) ==> r.value.hi == args.max.value - 1
    ensures r.Ok? && args.min.Provided? && args.includeMin.GetOr(true) ==> r.value.lo == args.min.value
    ensures r.Ok? && args.max.Provided? && args.includeMax.GetOr(true) ==> r.value.hi == args.max.value
  {
    var min := args.min.GetOr(0);
    var max := args.max.GetOr(MAX_INT64);
    var includeMin := args.includeMin.GetOr(true);
    var includeMax := args.includeMax.GetOr(true);
    if args.min.Provided? && !includeMin && min == MAX_INT64 then Err(MinBoundaryExhausted)
    else if args.max.Provided? && !includeMax && max == MIN_INT64 then Err(MaxBoundaryExhausted)
    else
      var adjustedMin: int64 := if args.min.Provided? && !includeMin then min + 1 else min;
      var adjustedMax: int64 := if args.max.Provided? && !includeMax then max - 1 else max;
      Ok(Bounds(adjustedMin, adjustedMax))
  }

  // ---------------------------------------------------------------------------
  // random_int handler result
  // ---------------------------------------------------------------------------

  /** What the handler answers: an error flag with its cause, or the value both as
      text and as the structured record; never both. */
  datatype IntToolResult = ToolError(error: Error) | ToolValue(text: string, value: int64)

  /** The decision part of `randomIntHandler`. */
  function RandomIntTool(args: IntArgs, tape: Tape): (r: IntToolResult)
    ensures r.ToolValue? ==> Admits(args, r.value)
    ensures r.ToolValue? ==> r.text == Format(r.value)
    ensures r.ToolValue? ==> ParseInt(r.text) == Some(r.value)
    ensures r.ToolValue? && args.min.Provided? && !args.includeMin.GetOr(true) ==> r.value != args.min.value
    ensures r.ToolValue? && args.max.Provided? && !args.includeMax.GetOr(true) ==> r.value != args.max.value
    ensures r == ToolError(MinBoundaryExhausted) <==> MinExhausted(args)
    ensures r == ToolError(MaxBoundaryExhausted) <==> !MinExhausted(args) && MaxExhausted(args)
    ensures r.ToolError? ==>
      r.error == MinBoundaryExhausted || r.error == MaxBoundaryExhausted ||
      r.error == InvalidRange || r.error == EntropyFailure
  {
    match ResolveIntRange(args)
    case Err(e) => ToolError(e)
    case Ok(b) =>
      var d := RandomInt64InRange(b.lo, b.hi, tape);
      match d.result
      case Err(e) => ToolError(e)
      case Ok(v) => FormatParseRoundTrip(v); ToolValue(Format(v), v)
  }

  /** The handler reports InvalidRange exactly when no bound is exhausted and yet no
      int64 satisfies the request: min > max, or equal bounds with an exclusion. */
  lemma InvalidRangeExactlyWhenEmpty(args: IntArgs, tape: Tape)
    ensures RandomIntTool(args, tape) == ToolError(InvalidRange) <==>
      !MinExhausted(args) && !MaxExhausted(args) && forall x :: !Admits(args, x)
  {
    var r := ResolveIntRange(args);
    if r.Ok? && r.value.lo <= r.value.hi {
      assert Admits(args, r.value.lo);
    }
  }

  /** Every value a request admits is answered for some tape, text and record alike. */
  lemma RandomIntToolReaches(args: IntArgs, x: int64)
    requires Admits(args, x)
    ensures RandomIntTool(args, [x - ResolveIntRange(args).value.lo]) == ToolValue(Format(x), x)
  {
    var b := ResolveIntRange(args).value;
    assert b.lo <= x <= b.hi;
    RandomInt64Reaches(b.lo, b.hi, x);
    assert RandomInt64InRange(b.lo, b.hi, [x - b.lo]).result == Ok(x);
  }

  /** The cases of the handler's tests, and the boundary-exhaustion cases. */
  lemma RandomIntToolCases(tape: Tape)
    ensures var r := RandomIntTool(IntArgs(Absent, Absent, Absent, Absent), tape);
      (r.ToolValue? ==> 0 <= r.value <= MAX_INT64) && (r.ToolError? ==> r.error == EntropyFailure)
    ensures var r := RandomIntTool(IntArgs(Provided(5), Absent, Absent, Absent), tape);
      (r.ToolValue? ==> 5 <= r.value <= MAX_INT64) && (r.ToolError? ==> r.error == EntropyFailure)
    ensures var r := RandomIntTool(IntArgs(Absent, Provided(10), Absent, Absent), tape);
      (r.ToolValue? ==> 0 <= r.value <= 10) && (r.ToolError? ==> r.error == EntropyFailure)
    ensures var r := RandomIntTool(IntArgs(Provided(3), Provided(7), Absent, Absent), tape);
      (r.ToolValue? ==> 3 <= r.value <= 7) && (r.ToolError? ==> r.error == EntropyFailure)
    ensures RandomIntTool(IntArgs(Provided(10), Provided(5), Absent, Absent), tape) == ToolError(InvalidRange)
    ensures RandomIntTool(IntArgs(Provided(MAX_INT64), Provided(MAX_INT64), Provided(false), Absent), tape)
      == ToolError(MinBoundaryExhausted)
    ensures RandomIntTool(IntArgs(Provided(MIN_INT64), Provided(MIN_INT64), Absent, Provided(false)), tape)
      == ToolError(MaxBoundaryExhausted)
    ensures RandomIntTool(IntArgs(Provided(MIN_INT64), Provided(MAX_INT64), Absent, Absent), tape).ToolError? ==>
      RandomIntTool(IntArgs(Provided(MIN_INT64), Provided(MAX_INT64), Absent, Absent), tape).error == EntropyFailure
  {
  }

  // ---------------------------------------------------------------------------
  // ASCII string generator
  // ---------------------------------------------------------------------------

  const ASCII_START: nat := 32
  const ASCII_END: nat := 126
  const ASCII_RANGE: nat := ASCII_END - ASCII_START + 1

  predicate Printable(c: char) {
    ASCII_START <= c as int <= ASCII_END
  }

  predicate AllPrintable(s: string) {
    forall i :: 0 <= i < |s| ==> Printable(s[i])
  }

  /** Puts s in front of a successful string result. */
  function Prepend(s: string, d: Draw<string>): Draw<string> {
    match d.result
    case Ok(v) => Draw(Ok(s + v), d.rest)
    case Err(e) => d
  }

  lemma PrependPrepend(s: string, t: string, d: Draw<string>)
    ensures Prepend(s, Prepend(t, d)) == Prepend(s + t, d)
  {
    if d.result.Ok? {
      assert s + (t + d.result.value) == (s + t) + d.result.value;
    }
  }

  lemma PrependEmpty(d: Draw<string>)
    ensures Prepend([], d) == d
  {
    if d.result.Ok? {
      assert [] + d.result.value == d.result.value;
    }
  }

  /** The string made by count successive independent draws from the printable
      alphabet, stopping at the first failing draw. */
  function AsciiDraws(count: nat, tape: Tape): (d: Draw<string>)
    ensures |d.rest| <= |tape|
    ensures d.result.Ok? ==> |d.result.value| == count
    ensures d.result.Err? ==> d.result.error == EntropyFailure
    decreases count
  {
    if count == 0 then Draw(Ok([]), tape)
    else
      var u := UniformBelow(ASCII_RANGE, tape);
      match u.result
      case Err(e) => Draw(Err(e), u.rest)
      case Ok(code) => Prepend([(ASCII_START + code) as char], AsciiDraws(count - 1, u.rest))
  }

  /** Every character the generator produces is printable ASCII. */
  lemma {:induction false} AsciiDrawsPrintable(count: nat, tape: Tape)
    ensures var d := AsciiDraws(count, tape); d.result.Ok? ==> AllPrintable(d.result.value)
    decreases count
  {
    if count > 0 {
      var u := UniformBelow(ASCII_RANGE, tape);
      if u.result.Ok? {
        AsciiDrawsPrintable(count - 1, u.rest);
        var tail := AsciiDraws(count - 1, u.rest);
        if tail.result.Ok? {
          var s := [(ASCII_START + u.result.value) as char] + tail.result.value;
          forall i | 0 <= i < |s| ensures Printable(s[i]) {
            if i > 0 { assert s[i] == tail.result.value[i - 1]; }
          }
        }
      }
    }
  }

  /** One draw of the loop in RandomASCIIString: the string still to come either
      fails with the draw, or starts with the drawn character. */
  lemma AsciiDrawsStep(total: Draw<string>, built: string, count: nat, remaining: Tape)
    requires count > 0
    requires total == Prepend(built, AsciiDraws(count, remaining))
    ensures var u := UniformBelow(ASCII_RANGE, remaining);
      && (u.result.Err? ==> total == Draw(Err(u.result.error), u.rest))
      && (u.result.Ok? ==>
            total == Prepend(built + [(ASCII_START + u.result.value) as char], AsciiDraws(count - 1, u.rest)))
  {
    var u := UniformBelow(ASCII_RANGE, remaining);
    if u.result.Ok? {
      var c := (ASCII_START + u.result.value) as char;
      PrependPrepend(built, [c], AsciiDraws(count - 1, u.rest));
    }
  }

  /** The tape that makes the generator spell s: one candidate per character. */
  function Codes(s: string): (t: Tape)
    requires AllPrintable(s)
    ensures |t| == |s|
    ensures forall i :: 0 <= i < |s| ==> t[i] == s[i] as int - ASCII_START
  {
    if s == [] then [] else [s[0] as int - ASCII_START] + Codes(s[1..])
  }

  /** Every printable string is produced by some tape, so the generator's range is
      the whole alphabet at every position. */
  lemma {:induction false} AsciiDrawsReaches(s: string)
    requires AllPrintable(s)
    ensures AsciiDraws(|s|, Codes(s)) == Draw(Ok(s), [])
    decreases |s|
  {
    if s != [] {
      var t := Codes(s);
      assert t[1..] == Codes(s[1..]);
      AsciiDrawsReaches(s[1..]);
      var u := UniformBelow(ASCII_RANGE, t);
      assert u == Draw(Ok(t[0]), t[1..]);
      assert [(ASCII_START + t[0]) as char] + s[1..] == s;
    }
  }

  /** `randomASCIIString`: a non-positive length is refused; otherwise one draw per
      position from [0, 95) appended as the character 32 + draw, returning early on a
      failing draw. */
  method RandomASCIIString(length: int, tape: Tape) returns (r: Result<string>, rest: Tape)
    ensures length <= 0 ==> r == Err(ZeroLength) && rest == tape
    ensures length > 0 ==> Draw(r, rest) == AsciiDraws(length, tape)
    ensures r.Ok? ==> |r.value| == length && AllPrintable(r.value)
    ensures r.Err? ==> (r.error == ZeroLength <==> length <= 0)
  {
    if length <= 0 {
      return Err(ZeroLength), tape;
    }
    var built := "";
    var remaining := tape;
    var i := 0;
    PrependEmpty(AsciiDraws(length, tape));
    while i < length
      invariant 0 <= i <= length
      invariant |built| == i && AllPrintable(built)
      invariant AsciiDraws(length, tape) == Prepend(built, AsciiDraws(length - i, remaining))
    {
      var u := UniformBelow(ASCII_RANGE, remaining);
      AsciiDrawsStep(AsciiDraws(length, tape), built, length - i, remaining);
      if u.result.Err? {
        return Err(u.result.error), u.rest;
      }
      built := built + [(ASCII_START + u.result.value) as char];
      remaining := u.rest;
      i := i + 1;
    }
    assert built + [] == built;
    return Ok(built), remaining;
  }
}
