# Secure random values for the random_int and random_ascii tools — a Dafny model

This project models the deterministic core of package `random` of the
go-random-number-mcp server: the generator of a uniform int64 in an inclusive
range (`randomInt64InRange`), the way the `random_int` tool turns its optional
arguments into that range (defaults, exclusive bounds, boundary exhaustion), the
tool's paired text/structured answer, and the generator of a printable ASCII string
(`randomASCIIString`).

The secure source `crypto/rand.Int(rand.Reader, n)` is replaced by an oracle over an
injected tape of candidate draws (module `Entropy`). The oracle answers a value in
[0, n) or fails:

- a bound of 1 answers 0 without reading, as Go does;
- a candidate at or above n is rejected and the next one is read (rejection sampling);
- the end of the tape stands for a failing read of the entropy source.

Every property is then a deterministic statement about bounds, overflow freedom,
error conditions and output shape, for every tape.

Modules, one file each:

- `Outcomes` (outcomes.dfy): the error variants and `Result`.
- `Int64` (int64.dfy): the int64 range and `(*big.Int).Int64` narrowing (two's-complement wrap).
- `Decimal` (decimal.dfy): `%d` rendering and `strconv.ParseInt(s, 10, 64)`, with the round trip.
- `Entropy` (entropy.dfy): the tape, `Draw` (a result plus the unread tape) and the oracle.
- `Random` (random.dfy): the generators, the request resolution and the handler's result.

Optional arguments (`*int64`, `*bool` in Go) are the datatype `Arg<T> = Absent | Provided(value)`.
Errors are variants, not message strings. The two exhaustion messages of the handler are
two variants, `MinBoundaryExhausted` and `MaxBoundaryExhausted`. The min check comes first.

`randomInt64InRange` and the request resolution are straight-line code over locals in Go,
so they are functions here. `randomASCIIString` appends to a builder in a loop, so it is a
method with a `while` loop. Its invariants tie the built prefix to the specification
function `AsciiDraws`. The tape is passed in and the unread rest returned, so the method
changes no state.

The printable alphabet is codes 32 to 126, which is 95 characters: the code computes
`asciiRange = 126 - 32 + 1` and draws from [0, 95).

## Model

| member | source | states |
|---|---|---|
| `Int64.Wrap` | internal/random/random.go:254-255 | `Int64()` keeps x modulo 2^64 as an int64, and it returns x unchanged exactly when x fits in int64 |
| `Entropy.UniformBelow` | internal/random/random.go:249 | the draw is below n when it succeeds; a failure is `EntropyFailure` and consumes the tape; the tape only shrinks |
| `Entropy.UniformBelowRejects` | internal/random/random.go:249 | the unread tape is a suffix of the tape; the draw succeeds iff n is 1 or some candidate is below n; it answers the first candidate below n, after skipping every candidate before it |
| `Random.RandomInt64InRange` | internal/random/random.go:240-256 | `InvalidRange` exactly when min > max, with no value; otherwise the only other error is `EntropyFailure`; a success lies in [min, max] and equals min + d for the draw d from [0, max - min + 1), so the narrowing never wraps, even for the full int64 range; a one-value range answers min without reading |
| `Random.RandomInt64Reaches` | internal/random/random.go:247-255 | every value of [min, max] is produced by some draw, namely value - min |
| `Random.RandomInt64Injective` | internal/random/random.go:254-255 | distinct successful draws give distinct values, so the draw over [0, span) maps one to one onto [min, max] |
| `Random.ResolveIntRange` | internal/random/random.go:98-138 | fails exactly when a supplied min of MaxInt64 or a supplied max of MinInt64 is excluded, min first, and then no int64 satisfies the request; otherwise [lo, hi] holds exactly the int64 values the request admits; an absent min gives 0 and an absent max gives MaxInt64, whatever the inclusivity flags; a supplied, excluded min gives min + 1 and a supplied, excluded max gives max - 1; a supplied, included bound is kept as given |
| `Random.RandomIntTool` | internal/random/random.go:98-158 | a value answered satisfies the request, its text is the `%d` rendering of the value, is never an excluded bound, and its text parses back to exactly the structured value; the two exhaustion errors occur exactly in their cases; the only other errors are `InvalidRange` and `EntropyFailure`; an error never carries a value |
| `Random.InvalidRangeExactlyWhenEmpty` | internal/random/random.go:141-149 | the handler reports `InvalidRange` exactly when no bound is exhausted and no int64 satisfies the request (min > max, or equal bounds with an exclusion) |
| `Random.RandomIntToolReaches` | internal/random/random.go:141-157 | every int64 the request admits is the answer, with its decimal text, for some tape |
| `Random.RandomIntToolCases` | internal/random/random_test.go:20-76 | each of the tests' four valid requests fails only for lack of entropy; no arguments give [0, MaxInt64]; min only keeps the max default and max only keeps the min default; min 3 with max 7 gives [3, 7]; min 10 with max 5 is `InvalidRange`; excluding min = MaxInt64 or max = MinInt64 is refused; the full int64 range can fail only for lack of entropy |
| `Decimal.Format` | internal/random/random.go:155 | the `%d` text of x is non-empty and starts with '-' exactly when x is negative; the rest is a non-empty run of decimal digits denoting the magnitude of x, with no leading zero |
| `Decimal.ParseInt` | internal/random/random_test.go:104 | `strconv.ParseInt(s, 10, 64)`: a success needs a non-empty string that is an optional '+' or '-' followed by at least one decimal digit and nothing else; a negative result comes only from a leading '-'; an unsigned run of digits is accepted exactly when its value is at most MaxInt64, and then denotes that value; a '+' or '-' followed by digits is accepted exactly when the signed value fits in int64, and then denotes that value |
| `Decimal.NatDigitsValue` | internal/random/random.go:155 | the `%d` digits of a natural number are non-empty decimal digits that denote that number |
| `Decimal.FormatParseRoundTrip` | internal/random/random_test.go:104-118 | `strconv.ParseInt(s, 10, 64)` of the `%d` rendering of any int64 gives back exactly that value |
| `Random.AsciiDraws` | internal/random/random.go:318-324 | `length` successive draws from [0, 95) give a string of exactly that many characters, or the `EntropyFailure` of the first failing draw |
| `Random.AsciiDrawsPrintable` | internal/random/random.go:311-323 | every character produced has a code in [32, 126] |
| `Random.AsciiDrawsReaches` | internal/random/random.go:318-324 | every printable string is produced by some tape, one candidate per character, which it consumes entirely |
| `Random.RandomASCIIString` | internal/random/random.go:306-327 | a length of 0 or less is `ZeroLength` and reads nothing; otherwise the result and unread tape are those of `AsciiDraws`; a success has exactly `length` characters, all printable; `ZeroLength` occurs exactly for a non-positive length |

## Left out

- Float generation (`randomFloat64InRange`, `cryptoRandFloat64`, `randomFloatHandler`, internal/random/random.go:161-206 and 258-302): it rests on IEEE-754 semantics (NaN and infinity tests, `math.Nextafter`, interpolation, `%g`), and Dafny has no float64 type.
- Uniformity and the absence of modulo bias of `crypto/rand.Int`: a probabilistic property of Go's library and the OS entropy source. The oracle is modelled by its range, its rejection of out-of-range candidates and its possible failure only.
- How `crypto/rand.Int` builds a candidate (reading ceil(k/8) bytes and masking the top byte to k = bitlen(n - 1) bits): each tape entry stands for one candidate. A read that fails midway is the end of the tape.
- `NewMCPServer` and tool registration, `request.BindArguments` and its binding errors, the construction of `CallToolResult`, and the JSON schema structs: protocol plumbing over a library that is not part of this model. `randomASCIIHandler` only copies the string into the text and the record, so it is left out with them.
- Logging through `slog` (internal/random/random.go:140, 150): a side effect only.
- cmd/main.go: flag parsing and the HTTP server, which are I/O.
- The exact error message strings: errors are datatype variants.
- `Decimal.ParseInt` does not tell a syntax error from a range error, and does not model the clamped value `strconv.ParseInt` returns with a range error. Both are `None`.
- The Go `int` width of the string length: the model uses an unbounded integer. Any length Go accepts behaves the same.
