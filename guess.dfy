/**
 * The number guesser of guess/guess.go: the player thinks of a number
 * between 1 and 1000, and the program bisects the interval [low, high]
 * according to the answers "a" (too high), "b" (too low) and "c" (correct).
 * The lines read from standard input are a parameter: `responses` are the
 * lines after the one that answers "Press ENTER when ready", which is read
 * and ignored.
 */
module Guess {

  const InitialLow: int := 1
  const InitialHigh: int := 1000

  /** Go's integer division by two, which truncates towards zero. */
  function Half(n: int): (h: int)
    ensures n >= 0 ==> h == n / 2
    ensures n < 0 ==> h == -((-n) / 2)
    ensures 2 * h <= n + 1 && n - 1 <= 2 * h
  {
    if n >= 0 then n / 2 else -((-n) / 2)
  }

  /** The guess for the interval [low, high]. */
  function Guessed(low: int, high: int): (g: int)
    ensures low <= high ==> low <= g <= high
  {
    Half(low + high)
  }

  /** The state after one answer: the interval, and whether the game is won. */
  datatype Bounds = Bounds(low: int, high: int, won: bool)

  /**
   * One round: "a" puts the top of the interval below the guess, "b" puts
   * the bottom above it, "c" ends the game, and any other line changes nothing.
   */
  function Step(low: int, high: int, response: string): (b: Bounds)
    ensures b.won <==> response == "c"
    ensures response == "a" ==> b.low == low && b.high == Guessed(low, high) - 1
    ensures response == "b" ==> b.low == Guessed(low, high) + 1 && b.high == high
    ensures response !in {"a", "b"} ==> b.low == low && b.high == high
  {
    var guess := Guessed(low, high);
    if response == "a" then Bounds(low, guess - 1, false)
    else if response == "b" then Bounds(guess + 1, high, false)
    else if response == "c" then Bounds(low, high, true)
    else Bounds(low, high, false)
  }

  /** Each "a" or "b" on a non-empty interval at least halves its width. */
  lemma StepHalves(low: int, high: int, response: string)
    requires low <= high && response in {"a", "b"}
    ensures var b := Step(low, high, response);
      b.high - b.low < high - low && b.high - b.low + 1 <= (high - low + 1) / 2
  {
    var g := Guessed(low, high);
    assert 2 * g <= low + high + 1 && low + high - 1 <= 2 * g;
  }

  /** The answer of a player who thinks of `secret`. */
  function Honest(secret: int, guess: int): string
  {
    if guess > secret then "a" else if guess < secret then "b" else "c"
  }

  /** An honest answer keeps the secret inside the interval. */
  lemma HonestKeepsSecret(low: int, high: int, secret: int)
    requires low <= secret <= high
    ensures var b := Step(low, high, Honest(secret, Guessed(low, high)));
      b.won || b.low <= secret <= b.high
  {
  }

  /** How many guesses the program makes against an honest player starting from [low, high]. */
  function HonestGuesses(low: int, high: int, secret: int): (n: nat)
    requires low <= secret <= high
    decreases high - low
  {
    var g := Guessed(low, high);
    if g == secret then 1
    else
      var b := Step(low, high, Honest(secret, g));
      StepHalves(low, high, Honest(secret, g));
      1 + HonestGuesses(b.low, b.high, secret)
  }

  function Pow2(k: nat): (p: nat)
    ensures p >= 1
  {
    if k == 0 then 1 else 2 * Pow2(k - 1)
  }

  /** An interval of fewer than 2^k numbers is won within k guesses. */
  lemma {:induction false} HonestWithin(low: int, high: int, secret: int, k: nat)
    requires low <= secret <= high && high - low + 1 < Pow2(k)
    ensures HonestGuesses(low, high, secret) <= k
    decreases k
  {
    var g := Guessed(low, high);
    if g != secret {
      var b := Step(low, high, Honest(secret, g));
      StepHalves(low, high, Honest(secret, g));
      HonestKeepsSecret(low, high, secret);
      assert k > 0;
      HonestWithin(b.low, b.high, secret, k - 1);
    }
  }

  /** Against an honest player the game starting at [1, 1000] takes at most ten guesses. */
  lemma TenGuesses(secret: int)
    requires InitialLow <= secret <= InitialHigh
    ensures HonestGuesses(InitialLow, InitialHigh, secret) <= 10
  {
    assert Pow2(10) == 1024;
    HonestWithin(InitialLow, InitialHigh, secret, 10);
  }

  /** The guesses made while reading `responses` from [low, high], and whether "c" was read. */
  function Session(low: int, high: int, responses: seq<string>): (seq<int>, bool)
    decreases |responses|
  {
    if responses == [] then ([], false)
    else
      var b := Step(low, high, responses[0]);
      if b.won then ([Guessed(low, high)], true)
      else
        var rest := Session(b.low, b.high, responses[1..]);
        ([Guessed(low, high)] + rest.0, rest.1)
  }

  /** The game is won exactly when some line reads "c", and it stops at the first one: one guess per line up to it. */
  lemma {:induction false} SessionStopsAtC(low: int, high: int, responses: seq<string>)
    ensures Session(low, high, responses).1 <==> "c" in responses
    ensures |Session(low, high, responses).0| ==
      if "c" in responses then FirstC(responses) + 1 else |responses|
    decreases |responses|
  {
    if responses != [] {
      var b := Step(low, high, responses[0]);
      if !b.won {
        SessionStopsAtC(b.low, b.high, responses[1..]);
        assert responses == [responses[0]] + responses[1..];
      }
    }
  }

  function FirstC(responses: seq<string>): (i: nat)
    requires "c" in responses
    ensures i < |responses| && responses[i] == "c" && "c" !in responses[..i]
  {
    if responses[0] == "c" then 0 else 1 + FirstC(responses[1..])
  }

  /**
   * The loop of `main`: guess, read a line, take one `Step`; the game ends
   * on "c", or here when the input runs out.
   */
  method Play(responses: seq<string>) returns (guesses: seq<int>, won: bool)
    ensures (guesses, won) == Session(InitialLow, InitialHigh, responses)
  {
    ghost var total := Session(InitialLow, InitialHigh, responses);
    var low := InitialLow;
    var high := InitialHigh;
    guesses := [];
    won := false;
    var i := 0;
    assert responses[0..] == responses;
    while i < |responses|
      invariant 0 <= i <= |responses|
      invariant guesses + Session(low, high, responses[i..]).0 == total.0
      invariant Session(low, high, responses[i..]).1 == total.1
    {
      ghost var rest := responses[i..];
      assert rest[0] == responses[i] && rest[1..] == responses[i + 1..];
      var guess := Guessed(low, high);
      guesses := guesses + [guess];
      var next := Step(low, high, responses[i]);
      if next.won {
        won := true;
        assert total == (guesses, won);
        return;
      }
      low, high := next.low, next.high;
      i := i + 1;
    }
    assert responses[i..] == [];
    assert guesses + [] == guesses;
    assert total == (guesses, won);
  }
}
