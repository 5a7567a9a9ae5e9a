/** Shared value types of the game server: the per-letter verdict, and the
    Option/Result wrappers that stand in for JavaScript's null and thrown errors. */
module Types {

  /** Outcome of one letter of a guess, as stored in `guesses[].result`. */
  datatype Verdict = Correct | Present | Absent

  /** A document id (a MongoDB ObjectId in its string form). */
  type Id = string

  datatype Option<+T> = None | Some(value: T)

  /** A handler either produces a value or fails with an error the route
      turns into an HTTP status and a message. */
  datatype Result<+T> = Ok(value: T) | Err(error: Failure)

  /** The failures the core reports; each names the status the route sends. */
  datatype Failure =
    | NoWordsAvailable    // getRandomWord's throw: 400 in the game routes, 500 in the challenge handlers
    | NoActiveGame        // 404 "No active game found"
    | InvalidPowerUp      // 400 "Invalid power-up type"
    | ValidationFailed    // 400 from a schema validator rejecting a save
    | GuessRequired       // 400 "Guess is required"
    | MaxAttemptsReached  // 400 "Maximum attempts reached for today"
    | InvalidWord         // 400 "Invalid word"
    | UserNotFound        // 500 from dereferencing a missing user

  /** Every verdict is `Correct`: the test both `/guess` and the challenge
      controller use to decide that a guess solved the word. */
  predicate AllCorrect(r: seq<Verdict>)
  {
    forall i :: 0 <= i < |r| ==> r[i] == Correct
  }

  /** Number of `Correct` verdicts in `r`. */
  function CountCorrect(r: seq<Verdict>): (n: nat)
    ensures n <= |r|
    ensures n == |r| <==> AllCorrect(r)
  {
    if r == [] then 0
    else (if r[0] == Correct then 1 else 0) + CountCorrect(r[1..])
  }

  /** JavaScript's Math.floor(Math.random() * n) for a random number `rnd`
      in [0, 1): always an index below `n`. */
  function RandomIndex(rnd: real, n: nat): (k: nat)
    requires 0.0 <= rnd < 1.0
    requires n > 0
    ensures k < n
  {
    var x := rnd * (n as real);
    assert 0.0 <= x < n as real;
    x.Floor
  }
}
