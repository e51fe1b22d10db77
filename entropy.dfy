/** The uniform source `crypto/rand.Int(rand.Reader, n)`, modelled as an oracle over an
    injected tape of candidate draws instead of the operating system's entropy. */
module Entropy {
  import opened Outcomes

  /** What the reader will supply, in order: each entry is one candidate value
      (the bytes of one read); the end of the tape is a failing read. */
  type Tape = seq<nat>

  /** The result of a computation that consumes entropy, and what is left of the tape. */
  datatype Draw<+T> = Draw(result: Result<T>, rest: Tape)

  /** A uniform integer in [0, n). As in Go, a bound of 1 answers 0 without reading;
      otherwise candidates at or above n are rejected and the next one is read,
      and a failing read is an error. */
  function UniformBelow(n: nat, tape: Tape): (d: Draw<nat>)
    requires n > 0
    ensures |d.rest| <= |tape|
    ensures d.result.Ok? ==> d.result.value < n
    ensures d.result.Err? ==> d.result.error == EntropyFailure && d.rest == []
    decreases |tape|
  {
    if n == 1 then Draw(Ok(0), tape)
    else if tape == [] then Draw(Err(EntropyFailure), [])
    else if tape[0] < n then Draw(Ok(tape[0]), tape[1..])
    else UniformBelow(n, tape[1..])
  }

  /** The oracle only consumes the tape, and is rejection sampling: it succeeds
      exactly when some candidate is below n (or n is 1), and then answers the first
      such candidate, having skipped every candidate before it. */
  lemma {:induction false} UniformBelowRejects(n: nat, tape: Tape)
    requires n > 0
    ensures var d := UniformBelow(n, tape);
      && d.rest == tape[|tape| - |d.rest|..]
      && (d.result.Ok? <==> n == 1 || exists i :: 0 <= i < |tape| && tape[i] < n)
      && (d.result.Ok? && n > 1 ==>
            && |d.rest| < |tape|
            && tape[|tape| - |d.rest| - 1] == d.result.value
            && forall j :: 0 <= j < |tape| - |d.rest| - 1 ==> tape[j] >= n)
    decreases |tape|
  {
    if n > 1 && tape != [] && tape[0] >= n {
      UniformBelowRejects(n, tape[1..]);
      var d := UniformBelow(n, tape[1..]);
      assert tape[1..][|tape| - 1 - |d.rest|..] == tape[|tape| - |d.rest|..];
      if d.result.Ok? {
        var k := |tape| - |d.rest| - 1;
        assert tape[k] == tape[1..][k - 1];
        forall j | 0 <= j < k ensures tape[j] >= n {
          if j > 0 { assert tape[j] == tape[1..][j - 1]; }
        }
      } else {
        forall i | 0 <= i < |tape| ensures tape[i] >= n {
          if i > 0 { assert tape[i] == tape[1..][i - 1]; }
        }
      }
    }
  }
}
