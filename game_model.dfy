/** The game document of server/src/models/Game.js: its fields, the two-pass
    verdict `checkGuess`, and the scoring done by `calculateScore` and
    `endGame`. */
module GameModel {
  import opened Types

  /** A game ends at its sixth guess. */
  const MaxGuesses := 6

  datatype Status = Playing | Won | Lost

  /** One entry of `guesses`: the submitted word, its verdict and when it
      was made. */
  datatype GuessRecord = GuessRecord(word: string, result: seq<Verdict>, timestamp: int)

  /** The three power-ups the schema allows in `powerUpsUsed[].type`. */
  datatype PowerUpType = LetterReveal | ExtraTime | WordSkip

  /** One entry of `powerUpsUsed`; `kind` is None when the request named no type. */
  datatype PowerUpUse = PowerUpUse(kind: Option<PowerUpType>, timestamp: int)

  // ---------------------------------------------------------------------
  // The verdict, as a specification on values
  // ---------------------------------------------------------------------

  /** Position `i` of the guess holds the secret's letter at `i`. A guess
      shorter than the secret has no letter there (JavaScript `undefined`). */
  predicate Exact(word: string, guess: string, i: int)
    requires 0 <= i < |word|
  {
    i < |guess| && guess[i] == word[i]
  }

  /** Position `i` of the guess holds `c` and is not an exact match: a
      letter the second pass has to place. */
  predicate Loose(word: string, guess: string, i: int, c: char)
    requires 0 <= i < |word|
  {
    i < |guess| && !Exact(word, guess, i) && guess[i] == c
  }

  /** Loose guesses of `c` at positions before `i`. */
  function LooseBefore(word: string, guess: string, i: nat, c: char): nat
    requires i <= |word|
  {
    if i == 0 then 0
    else LooseBefore(word, guess, i - 1, c) + (if Loose(word, guess, i - 1, c) then 1 else 0)
  }

  /** Copies of `c` in the secret at positions before `i` that no exact
      match took. */
  function PoolBefore(word: string, guess: string, i: nat, c: char): nat
    requires i <= |word|
  {
    if i == 0 then 0
    else PoolBefore(word, guess, i - 1, c) + (if !Exact(word, guess, i - 1) && word[i - 1] == c then 1 else 0)
  }

  /** Exact matches on the letter `c` at positions before `i`. */
  function ExactBefore(word: string, guess: string, i: nat, c: char): nat
    requires i <= |word|
  {
    if i == 0 then 0
    else ExactBefore(word, guess, i - 1, c) + (if Exact(word, guess, i - 1) && word[i - 1] == c then 1 else 0)
  }

  /** The copies of `c` the second pass can hand out as `present`. */
  function PoolCount(word: string, guess: string, c: char): nat
  {
    PoolBefore(word, guess, |word|, c)
  }

  /** The verdict at position `i`: an exact match is `correct`; a loose
      letter is `present` while fewer loose copies of it came earlier than
      the secret has copies left after the exact matches, and `absent` once
      those are used up; no letter at all is `absent`. */
  function VerdictAt(word: string, guess: string, i: nat): Verdict
    requires i < |word|
  {
    if Exact(word, guess, i) then Correct
    else if i < |guess| && LooseBefore(word, guess, i, guess[i]) < PoolCount(word, guess, guess[i]) then Present
    else Absent
  }

  /** The verdict of `guess` against the secret `word`: one mark per letter
      of the secret. */
  function Evaluate(word: string, guess: string): seq<Verdict>
  {
    seq(|word|, i requires 0 <= i < |word| => VerdictAt(word, guess, i))
  }

  /** One verdict per letter of the secret; position `j` is `correct`
      exactly when the guess has the secret's letter there, and `present`
      only at a position holding a letter that is not an exact match. */
  lemma EvaluateAt(word: string, guess: string)
    ensures |Evaluate(word, guess)| == |word|
    ensures forall j :: 0 <= j < |word| ==>
              (Evaluate(word, guess)[j] == Correct <==> Exact(word, guess, j))
    ensures forall j :: 0 <= j < |word| && Evaluate(word, guess)[j] == Present ==>
              j < |guess| && guess[j] != word[j]
  {
  }

  /** Guessing the secret itself gives all `correct`. */
  lemma EvaluateSelf(word: string)
    ensures AllCorrect(Evaluate(word, word))
  {
    EvaluateAt(word, word);
  }

  /** The verdict is all-`correct` exactly when the guess starts with the secret. */
  lemma EvaluateAllCorrect(word: string, guess: string)
    ensures AllCorrect(Evaluate(word, guess)) <==> |guess| >= |word| && guess[..|word|] == word
  {
    EvaluateAt(word, guess);
    if AllCorrect(Evaluate(word, guess)) && |word| > 0 {
      assert Exact(word, guess, |word| - 1);
      assert forall j :: 0 <= j < |word| ==> guess[..|word|][j] == word[j] by {
        forall j | 0 <= j < |word| ensures guess[..|word|][j] == word[j] {
          assert Evaluate(word, guess)[j] == Correct;
        }
      }
    }
    if |guess| >= |word| && guess[..|word|] == word {
      forall j | 0 <= j < |word| ensures Evaluate(word, guess)[j] == Correct {
        assert guess[..|word|][j] == guess[j];
      }
    }
  }

  /** A copy of `c` left after the exact matches is a copy in the secret. */
  lemma {:induction false} PoolBeforeIn(word: string, guess: string, i: nat, c: char)
    requires i <= |word|
    ensures PoolBefore(word, guess, i, c) > 0 ==> c in word[..i]
  {
    if i > 0 {
      PoolBeforeIn(word, guess, i - 1, c);
      assert word[..i] == word[..i - 1] + [word[i - 1]];
    }
  }

  /** A `present` mark is only given to a letter the secret contains. */
  lemma EvaluatePresentInWord(word: string, guess: string, j: int)
    requires 0 <= j < |word|
    ensures |Evaluate(word, guess)| == |word|
    ensures Evaluate(word, guess)[j] == Present ==> j < |guess| && guess[j] in word
  {
    if Evaluate(word, guess)[j] == Present {
      PoolBeforeIn(word, guess, |word|, guess[j]);
      assert word[..|word|] == word;
    }
  }

  /** Loose guesses only accumulate from left to right. */
  lemma {:induction false} LooseBeforeMonotone(word: string, guess: string, i: nat, k: nat, c: char)
    requires i <= k <= |word|
    ensures LooseBefore(word, guess, i, c) <= LooseBefore(word, guess, k, c)
    decreases k - i
  {
    if i < k {
      LooseBeforeMonotone(word, guess, i, k - 1, c);
    }
  }

  /** Copies are handed out left to right: when a loose letter is marked
      `present`, every earlier loose copy of the same letter is too. */
  lemma PresentLeftToRight(word: string, guess: string, j: int, k: int)
    requires 0 <= j < k < |word| && k < |guess|
    requires Loose(word, guess, j, guess[k])
    ensures |Evaluate(word, guess)| == |word|
    ensures Evaluate(word, guess)[k] == Present ==> Evaluate(word, guess)[j] == Present
  {
    LooseBeforeMonotone(word, guess, j + 1, k, guess[k]);
  }

  // ---------------------------------------------------------------------
  // Duplicate letters: the count of non-absent marks per letter
  // ---------------------------------------------------------------------

  function Min(a: int, b: int): int { if a <= b then a else b }

  /** Positions of `g` holding `c` whose verdict in `r` is not `absent`. */
  function Credited(g: seq<char>, r: seq<Verdict>, c: char): nat
    requires |g| == |r|
  {
    if g == [] then 0
    else Credited(g[..|g| - 1], r[..|r| - 1], c) + (if g[|g| - 1] == c && r[|r| - 1] != Absent then 1 else 0)
  }

  /** Over the first `i` positions, the credited copies of `c` are its exact
      matches plus as many loose copies as the pool allows. */
  lemma {:induction false} CreditedPrefix(word: string, guess: string, i: nat, c: char)
    requires i <= |word| == |guess|
    ensures |Evaluate(word, guess)| == |word|
    ensures Credited(guess[..i], Evaluate(word, guess)[..i], c)
            == ExactBefore(word, guess, i, c) + Min(LooseBefore(word, guess, i, c), PoolCount(word, guess, c))
  {
    if i > 0 {
      var r := Evaluate(word, guess);
      CreditedPrefix(word, guess, i - 1, c);
      assert guess[..i][..i - 1] == guess[..i - 1];
      assert r[..i][..i - 1] == r[..i - 1];
      assert r[i - 1] == VerdictAt(word, guess, i - 1);
    }
  }

  lemma {:induction false} PoolSplit(word: string, guess: string, i: nat, c: char)
    requires i <= |word|
    ensures PoolBefore(word, guess, i, c) + ExactBefore(word, guess, i, c) == multiset(word[..i])[c]
  {
    if i > 0 {
      PoolSplit(word, guess, i - 1, c);
      assert word[..i] == word[..i - 1] + [word[i - 1]];
    }
  }

  lemma {:induction false} GuessSplit(word: string, guess: string, i: nat, c: char)
    requires i <= |word| == |guess|
    ensures LooseBefore(word, guess, i, c) + ExactBefore(word, guess, i, c) == multiset(guess[..i])[c]
  {
    if i > 0 {
      GuessSplit(word, guess, i - 1, c);
      assert guess[..i] == guess[..i - 1] + [guess[i - 1]];
    }
  }

  /** The duplicate-letter rule: for every letter, the positions guessing it
      that are marked `correct` or `present` number the smaller of its count
      in the guess and its count in the secret. */
  lemma DuplicateLetters(word: string, guess: string, c: char)
    requires |guess| == |word|
    ensures |Evaluate(word, guess)| == |guess|
    ensures Credited(guess, Evaluate(word, guess), c) == Min(multiset(guess)[c], multiset(word)[c])
  {
    var n := |word|;
    CreditedPrefix(word, guess, n, c);
    PoolSplit(word, guess, n, c);
    GuessSplit(word, guess, n, c);
    assert guess[..n] == guess && word[..n] == word && Evaluate(word, guess)[..n] == Evaluate(word, guess);
  }

  /** A worked case with no exact match and a repeated letter on both
      sides: against "SPEED", the guess "ERASE" gets its first `E` and its
      `S` marked `present` and also its second `E`, since the secret has two. */
  lemma RepeatedLetterExample()
    ensures Evaluate("SPEED", "ERASE") == [Present, Absent, Absent, Present, Present]
  {
    assert |"SPEED"| == 5;
    assert PoolBefore("SPEED", "ERASE", 5, 'E') == 2;
    assert PoolBefore("SPEED", "ERASE", 5, 'S') == 1;
    assert PoolBefore("SPEED", "ERASE", 5, 'R') == 0;
    assert PoolBefore("SPEED", "ERASE", 5, 'A') == 0;
    assert LooseBefore("SPEED", "ERASE", 4, 'E') == 1;
    var r := Evaluate("SPEED", "ERASE");
    assert r[0] == Present && r[1] == Absent && r[2] == Absent && r[3] == Present && r[4] == Present;
  }

  // ---------------------------------------------------------------------
  // Scores
  // ---------------------------------------------------------------------

  /** `Math.max(0, 300 - timeSpent) * 2`. */
  function TimeBonus(timeSpent: int): (b: int)
    ensures 0 <= b
    ensures timeSpent >= 0 ==> b <= 600
    ensures b == 0 <==> timeSpent >= 300
  {
    (if 300 - timeSpent > 0 then 300 - timeSpent else 0) * 2
  }

  /** `calculateScore`: (level·100 + attempts left·50 + time bonus), scaled
      by the combo multiplier 1 + combo/10 and rounded down. */
  function MainScore(level: int, guessCount: int, timeSpent: int, combo: int): int
  {
    ((level * 100 + (MaxGuesses - guessCount) * 50 + TimeBonus(timeSpent)) * (10 + combo)) / 10
  }

  lemma ScaleMonotone(a: int, b: int, combo: nat)
    requires a <= b
    ensures (a * (10 + combo)) / 10 <= (b * (10 + combo)) / 10
  {
    assert a * (10 + combo) <= b * (10 + combo) by {
      assert (b - a) * (10 + combo) >= 0;
    }
  }

  /** Taking longer never raises the score. */
  lemma {:induction false} ScoreMonotoneTime(level: int, guessCount: int, t1: int, t2: int, combo: nat)
    requires t1 <= t2
    ensures MainScore(level, guessCount, t2, combo) <= MainScore(level, guessCount, t1, combo)
  {
    ScaleMonotone(level * 100 + (MaxGuesses - guessCount) * 50 + TimeBonus(t2),
                  level * 100 + (MaxGuesses - guessCount) * 50 + TimeBonus(t1), combo);
  }

  /** More guesses never raise the score. */
  lemma {:induction false} ScoreMonotoneGuesses(level: int, g1: int, g2: int, timeSpent: int, combo: nat)
    requires g1 <= g2
    ensures MainScore(level, g2, timeSpent, combo) <= MainScore(level, g1, timeSpent, combo)
  {
    ScaleMonotone(level * 100 + (MaxGuesses - g2) * 50 + TimeBonus(timeSpent),
                  level * 100 + (MaxGuesses - g1) * 50 + TimeBonus(timeSpent), combo);
  }

  /** A higher level never lowers the score. */
  lemma {:induction false} ScoreMonotoneLevel(l1: int, l2: int, guessCount: int, timeSpent: int, combo: nat)
    requires l1 <= l2
    ensures MainScore(l1, guessCount, timeSpent, combo) <= MainScore(l2, guessCount, timeSpent, combo)
  {
    ScaleMonotone(l1 * 100 + (MaxGuesses - guessCount) * 50 + TimeBonus(timeSpent),
                  l2 * 100 + (MaxGuesses - guessCount) * 50 + TimeBonus(timeSpent), combo);
  }

  /** With a non-negative level and at most six guesses, a longer combo
      never lowers the score. */
  lemma {:induction false} ScoreMonotoneCombo(level: nat, guessCount: int, timeSpent: int, c1: nat, c2: nat)
    requires guessCount <= MaxGuesses
    requires c1 <= c2
    ensures MainScore(level, guessCount, timeSpent, c1) <= MainScore(level, guessCount, timeSpent, c2)
  {
    var sum := level * 100 + (MaxGuesses - guessCount) * 50 + TimeBonus(timeSpent);
    assert sum >= 0;
    assert sum * (10 + c1) <= sum * (10 + c2) by {
      assert sum * (10 + c2) - sum * (10 + c1) == sum * (c2 - c1);
      assert sum * (c2 - c1) >= 0;
    }
  }

  // ---------------------------------------------------------------------
  // The game document
  // ---------------------------------------------------------------------

  class Game {
    var user: Id
    var word: string
    var level: int
    var guesses: seq<GuessRecord>
    var status: Status
    var score: int
    var startTime: int
    var endTime: Option<int>
    /** Seconds from start to end; unset (undefined) until `endGame`. */
    var timeSpent: Option<int>
    var combo: int
    var powerUpsUsed: seq<PowerUpUse>

    /** What the routes keep true of every stored game: at most six
        guesses, a playing game has fewer than six, a finished one has its
        end stamped, and the combo is never negative. */
    ghost predicate Valid()
      reads this
    {
      && |guesses| <= MaxGuesses
      && (status == Playing ==> |guesses| < MaxGuesses && endTime.None? && timeSpent.None?)
      && (status != Playing ==> endTime.Some? && timeSpent.Some?)
      && combo >= 0
    }

    /** `new Game({ user, word, level })` with the schema's defaults, the
        clock reading `now` standing for `startTime: Date.now`. */
    constructor (user: Id, word: string, level: int, now: int)
      ensures Valid()
      ensures this.user == user && this.word == word && this.level == level
      ensures guesses == [] && status == Playing && score == 0 && combo == 0
      ensures startTime == now && endTime == None && timeSpent == None && powerUpsUsed == []
    {
      this.user := user;
      this.word := word;
      this.level := level;
      guesses := [];
      status := Playing;
      score := 0;
      startTime := now;
      endTime := None;
      timeSpent := None;
      combo := 0;
      powerUpsUsed := [];
    }

    /** `checkGuess`: pass one marks exact matches and nulls them out of
        copies of the secret and of the guess; pass two gives each remaining
        guessed letter `present` if an unconsumed copy is left in the secret
        (consuming the first one) and `absent` otherwise. The secret itself
        is not touched. */
    method CheckGuess(guess: string) returns (result: seq<Verdict>)
      ensures result == Evaluate(word, guess)
    {
      var n := |word|;
      var w := word;
      var wordArray := new Option<char>[n](i requires 0 <= i < n => Some(w[i]));
      var guessArray := new Option<char>[|guess|](i requires 0 <= i < |guess| => Some(guess[i]));
      var marks := new Verdict[n](i => Absent);
      MarkExact(w, guess, wordArray, guessArray, marks);
      forall c ensures Letters(wordArray[..])[c] == Avail(w, guess, 0, c) {
        LettersOfMasked(w, guess, wordArray[..], 0, c);
      }
      assert wordArray[..][0..] == wordArray[..];
      MarkPresent(w, guess, wordArray, guessArray, marks);
      result := marks[..];
    }

    /** `calculateScore`: stores the score of the finished game in `score`
        and returns it. */
    method CalculateScore() returns (s: int)
      requires timeSpent.Some?
      modifies this`score
      ensures s == score == MainScore(level, |guesses|, timeSpent.value, combo)
    {
      score := MainScore(level, |guesses|, timeSpent.value, combo);
      s := score;
    }

    /** `endGame(status)` at clock reading `now` (milliseconds): sets the
        status and end time, the whole seconds elapsed since the start, and
        the score. Nothing stops a second call from doing it again. */
    method EndGame(s: Status, now: int)
      modifies this`status, this`endTime, this`timeSpent, this`score
      ensures status == s && endTime == Some(now)
      ensures timeSpent == Some((now - startTime) / 1000)
      ensures score == MainScore(level, |guesses|, (now - startTime) / 1000, combo)
    {
      status := s;
      endTime := Some(now);
      timeSpent := Some((now - startTime) / 1000);
      var _ := CalculateScore();
    }
  }

  // ---------------------------------------------------------------------
  // The two passes of `checkGuess` over its array copies
  // ---------------------------------------------------------------------

  /** Pass one copy of the secret: exact matches nulled out. */
  ghost predicate MaskedWord(word: string, guess: string, s: seq<Option<char>>)
  {
    |s| == |word| &&
    forall j :: 0 <= j < |s| ==> s[j] == (if Exact(word, guess, j) then None else Some(word[j]))
  }

  /** Pass one copy of the guess: exact matches nulled out. */
  ghost predicate MaskedGuess(word: string, guess: string, s: seq<Option<char>>)
  {
    |s| == |guess| &&
    forall j :: 0 <= j < |s| ==> s[j] == (if j < |word| && Exact(word, guess, j) then None else Some(guess[j]))
  }

  /** First pass: mark correct letters. */
  method MarkExact(w: string, guess: string, wordArray: array<Option<char>>,
                   guessArray: array<Option<char>>, marks: array<Verdict>)
    requires wordArray.Length == marks.Length == |w| && guessArray.Length == |guess|
    requires wordArray != guessArray
    requires forall j :: 0 <= j < |w| ==> wordArray[j] == Some(w[j])
    requires forall j :: 0 <= j < |guess| ==> guessArray[j] == Some(guess[j])
    modifies wordArray, guessArray, marks
    ensures MaskedWord(w, guess, wordArray[..])
    ensures MaskedGuess(w, guess, guessArray[..])
    ensures forall j :: 0 <= j < |w| ==> (Exact(w, guess, j) ==> marks[j] == Correct)
  {
    var n := |w|;
    for i := 0 to n
      invariant forall j :: 0 <= j < n ==>
                  wordArray[j] == (if j < i && Exact(w, guess, j) then None else Some(w[j]))
      invariant forall j :: 0 <= j < |guess| ==>
                  guessArray[j] == (if j < i && j < n && Exact(w, guess, j) then None else Some(guess[j]))
      invariant forall j :: 0 <= j < i ==> (Exact(w, guess, j) ==> marks[j] == Correct)
    {
      if i < guessArray.Length && guessArray[i] == wordArray[i] {
        marks[i] := Correct;
        wordArray[i] := None;
        guessArray[i] := None;
      }
    }
  }

  /** Copies of `c` still unconsumed when pass two reaches position `i`:
      the pool less the loose copies already placed, while it lasts. */
  function Avail(word: string, guess: string, i: nat, c: char): nat
    requires i <= |word|
  {
    PoolCount(word, guess, c) - Min(LooseBefore(word, guess, i, c), PoolCount(word, guess, c))
  }

  /** The letters left in the copy of the secret are those `Avail` counts. */
  ghost predicate Unconsumed(word: string, guess: string, i: nat, letters: multiset<char>)
    requires i <= |word|
  {
    forall c :: letters[c] == Avail(word, guess, i, c)
  }

  /** Second pass: mark present letters. */
  method MarkPresent(w: string, guess: string, wordArray: array<Option<char>>,
                     guessArray: array<Option<char>>, marks: array<Verdict>)
    requires wordArray.Length == marks.Length == |w|
    requires wordArray != guessArray
    requires MaskedGuess(w, guess, guessArray[..])
    requires forall j :: 0 <= j < |w| ==> (Exact(w, guess, j) ==> marks[j] == Correct)
    requires Unconsumed(w, guess, 0, Letters(wordArray[..]))
    modifies wordArray, marks
    ensures marks[..] == Evaluate(w, guess)
  {
    var n := |w|;
    for i := 0 to n
      invariant forall j :: i <= j < n ==> (Exact(w, guess, j) ==> marks[j] == Correct)
      invariant forall j :: 0 <= j < i ==> marks[j] == VerdictAt(w, guess, j)
      invariant Unconsumed(w, guess, i, Letters(wordArray[..]))
    {
      MarkOne(w, guess, wordArray, guessArray, marks, i);
    }
    EvaluateOf(w, guess, marks[..]);
  }

  /** A sequence holding the verdict at every position is the verdict. */
  lemma EvaluateOf(word: string, guess: string, s: seq<Verdict>)
    requires |s| == |word|
    requires forall j :: 0 <= j < |word| ==> s[j] == VerdictAt(word, guess, j)
    ensures s == Evaluate(word, guess)
  {
  }

  /** One round of the second pass, at position `i`: the mark at `i` is its
      verdict, and a `present` mark nulls out the first unconsumed copy of
      its letter. */
  method MarkOne(w: string, guess: string, wordArray: array<Option<char>>,
                 guessArray: array<Option<char>>, marks: array<Verdict>, i: nat)
    requires wordArray.Length == marks.Length == |w| && i < |w|
    requires wordArray != guessArray
    requires MaskedGuess(w, guess, guessArray[..])
    requires Exact(w, guess, i) ==> marks[i] == Correct
    requires Unconsumed(w, guess, i, Letters(wordArray[..]))
    modifies wordArray, marks
    ensures forall j :: 0 <= j < |w| && j != i ==> marks[j] == old(marks[j])
    ensures marks[i] == VerdictAt(w, guess, i)
    ensures Unconsumed(w, guess, i + 1, Letters(wordArray[..]))
  {
    ghost var ws := wordArray[..];
    if i < guessArray.Length && guessArray[i] == None {
      // already correct
      assert guessArray[..][i] == None;
      UnconsumedStep(w, guess, i, Letters(ws), Letters(ws));
    } else if i >= guessArray.Length {
      // guessArray[i] is undefined, and indexOf(undefined) is -1
      marks[i] := Absent;
      UnconsumedStep(w, guess, i, Letters(ws), Letters(ws));
    } else {
      var g := guessArray[i].value;
      assert guessArray[..][i] == Some(g);
      var index := IndexOf(wordArray[..], g);
      PresentWhileUnconsumed(w, guess, i, ws, g);
      if index != -1 {
        marks[i] := Present;
        LettersRemove(ws, index);
        wordArray[index] := None;
        assert wordArray[..] == ws[index := None];
        UnconsumedStep(w, guess, i, Letters(ws), Letters(wordArray[..]));
      } else {
        marks[i] := Absent;
        UnconsumedStep(w, guess, i, Letters(ws), Letters(ws));
      }
    }
  }

  /** A loose letter is `present` exactly when a copy of it is left
      unconsumed in the copy of the secret. */
  lemma PresentWhileUnconsumed(word: string, guess: string, i: nat, s: seq<Option<char>>, g: char)
    requires i < |word| && i < |guess| && guess[i] == g && !Exact(word, guess, i)
    requires Unconsumed(word, guess, i, Letters(s))
    ensures VerdictAt(word, guess, i) == Present <==> Some(g) in s
  {
    LettersHas(s, g);
    assert Letters(s)[g] == Avail(word, guess, i, g);
  }

  /** Marking position `i` takes one copy of its letter out of the
      unconsumed ones exactly when the mark is `present`. */
  lemma UnconsumedStep(word: string, guess: string, i: nat, before: multiset<char>, after: multiset<char>)
    requires i < |word|
    requires Unconsumed(word, guess, i, before)
    requires after == if VerdictAt(word, guess, i) == Present then before - multiset{guess[i]} else before
    ensures Unconsumed(word, guess, i + 1, after)
  {
    forall c ensures after[c] == Avail(word, guess, i + 1, c) {
      assert before[c] == Avail(word, guess, i, c);
    }
  }

  /** The letters still present (not nulled out) in a copy of the secret. */
  function Letters(s: seq<Option<char>>): multiset<char>
  {
    if s == [] then multiset{}
    else (if s[0].Some? then multiset{s[0].value} else multiset{}) + Letters(s[1..])
  }

  /** `Array.prototype.indexOf`: the first index holding `x`, or -1. */
  function IndexOf(s: seq<Option<char>>, x: char): (k: int)
    ensures -1 <= k < |s|
    ensures k >= 0 ==> s[k] == Some(x) && forall j :: 0 <= j < k ==> s[j] != Some(x)
    ensures k == -1 ==> forall j :: 0 <= j < |s| ==> s[j] != Some(x)
  {
    if s == [] then -1
    else if s[0] == Some(x) then 0
    else var k := IndexOf(s[1..], x); if k == -1 then -1 else k + 1
  }

  lemma {:induction false} LettersHas(s: seq<Option<char>>, x: char)
    ensures x in Letters(s) <==> Some(x) in s
  {
    if s != [] {
      LettersHas(s[1..], x);
      assert s == [s[0]] + s[1..];
    }
  }

  lemma {:induction false} LettersRemove(s: seq<Option<char>>, k: int)
    requires 0 <= k < |s| && s[k].Some?
    ensures Letters(s[k := None]) == Letters(s) - multiset{s[k].value}
  {
    if k > 0 {
      var x := s[k].value;
      var head := if s[0].Some? then multiset{s[0].value} else multiset{};
      LettersRemove(s[1..], k - 1);
      LettersHas(s[1..], x);
      assert s[1..][k - 1] == Some(x);
      assert s[k := None][1..] == s[1..][k - 1 := None];
      assert Letters(s[k := None]) == head + (Letters(s[1..]) - multiset{x});
      assert x in Letters(s[1..]);
    } else {
      assert s[k := None][1..] == s[1..];
    }
  }

  /** After pass one, the copies of `c` left at positions `i..` of the copy
      of the secret are the pool's copies not counted before `i`. */
  lemma {:induction false} LettersOfMasked(word: string, guess: string, s: seq<Option<char>>, i: nat, c: char)
    requires i <= |s| == |word|
    requires MaskedWord(word, guess, s)
    ensures Letters(s[i..])[c] == PoolCount(word, guess, c) - PoolBefore(word, guess, i, c)
    decreases |word| - i
  {
    if i < |s| {
      LettersOfMasked(word, guess, s, i + 1, c);
      assert s[i..][1..] == s[i + 1..];
      assert PoolBefore(word, guess, i + 1, c) <= PoolCount(word, guess, c) by {
        PoolBeforeMonotone(word, guess, i + 1, |word|, c);
      }
    }
  }

  lemma {:induction false} PoolBeforeMonotone(word: string, guess: string, i: nat, k: nat, c: char)
    requires i <= k <= |word|
    ensures PoolBefore(word, guess, i, c) <= PoolBefore(word, guess, k, c)
    decreases k - i
  {
    if i < k {
      PoolBeforeMonotone(word, guess, i, k - 1, c);
    }
  }
}
