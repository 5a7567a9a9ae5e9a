/** The daily-challenge handlers of
    server/src/controllers/challengeController.js: `submitAttempt` (its
    guards, its own single-pass verdict, the completion flag) and the
    `getTodayChallenge` view (the user's attempts, 1-based position, top
    ten). The dictionary check is a predicate passed in; the clock and the
    day key are integers passed in. */
module ChallengeController {
  import opened Types
  import opened GameModel
  import opened WordUtils
  import opened ChallengeModel

  /** A user may make at most this many attempts at a day's challenge. */
  const MaxAttempts := 6

  /** The view returns at most this many leaderboard entries. */
  const ViewEntries := 10

  /** What `submitAttempt` answers on success. */
  datatype AttemptResponse = AttemptResponse(result: seq<Verdict>, isCompleted: bool, attempts: int, time: int)

  /** What the `getTodayChallenge` handler answers; `position` is None for JSON null. */
  datatype ChallengeView = ChallengeView(date: int, difficulty: int, attempts: seq<Attempt>,
                                         position: Option<int>, leaderboard: seq<Entry>)

  /** `attempts.filter(a => a.user == u)`. */
  function OwnAttempts(log: seq<Attempt>, u: Id): (r: seq<Attempt>)
    ensures |r| <= |log|
    ensures forall a :: a in r <==> a in log && a.user == u
  {
    if log == [] then []
    else OwnAttempts(log[..|log| - 1], u) + (if log[|log| - 1].user == u then [log[|log| - 1]] else [])
  }

  /** Every user has at most six attempts in the log. */
  ghost predicate Capped(log: seq<Attempt>)
  {
    forall u :: |OwnAttempts(log, u)| <= MaxAttempts
  }

  /** Appending an attempt adds it to its own user's list and to no other. */
  lemma OwnAttemptsAppend(log: seq<Attempt>, a: Attempt, u: Id)
    ensures OwnAttempts(log + [a], u) == OwnAttempts(log, u) + (if a.user == u then [a] else [])
  {
    assert (log + [a])[..|log|] == log;
  }

  /** An attempt admitted by the guard, made by a user with fewer than six,
      keeps every user within six. */
  lemma CappedKept(log: seq<Attempt>, a: Attempt)
    requires Capped(log) && |OwnAttempts(log, a.user)| < MaxAttempts
    ensures Capped(log + [a])
  {
    forall u ensures |OwnAttempts(log + [a], u)| <= MaxAttempts {
      OwnAttemptsAppend(log, a, u);
    }
  }

  // ---------------------------------------------------------------------
  // The single-pass verdict
  // ---------------------------------------------------------------------

  /** `toLowerCase` on the letters A to Z; other characters are kept. */
  function Lower(s: string): (r: string)
    ensures |r| == |s|
    ensures forall i :: 0 <= i < |s| ==> r[i] == (if 'A' <= s[i] <= 'Z' then (s[i] as int + 32) as char else s[i])
  {
    if s == [] then []
    else [if 'A' <= s[0] <= 'Z' then (s[0] as int + 32) as char else s[0]] + Lower(s[1..])
  }

  /** `String.prototype.includes`: `sub` occurs in `s` as a substring. */
  predicate Includes(s: string, sub: string)
    decreases |s|
  {
    (|sub| <= |s| && s[..|sub|] == sub) || (s != [] && Includes(s[1..], sub))
  }

  /** The verdict at position `i` of the controller's loop: `correct` when
      the letters match there; otherwise `present` when the guessed letter
      occurs anywhere in the word; otherwise `absent`. Past the end of the
      guess the letter is `undefined`, which `includes` looks for as the
      text "undefined". */
  function LooseAt(word: string, guess: string, i: nat): Verdict
    requires i < |word|
  {
    if i < |guess| && guess[i] == word[i] then Correct
    else if (if i < |guess| then guess[i] in word else Includes(word, "undefined")) then Present
    else Absent
  }

  /** The controller's verdict: one mark per letter of the word, with no
      limit on how often a letter is marked `present`. */
  function LooseVerdict(word: string, guess: string): (r: seq<Verdict>)
    ensures |r| == |word|
    ensures forall i :: 0 <= i < |word| ==> (r[i] == Correct <==> Exact(word, guess, i))
    ensures forall i :: 0 <= i < |word| && i < |guess| && guess[i] in word ==> r[i] != Absent
    ensures forall i :: 0 <= i < |word| && i < |guess| && guess[i] != word[i] ==> (r[i] == Present <==> guess[i] in word)
    ensures forall i :: |guess| <= i < |word| ==> (r[i] == Present <==> Includes(word, "undefined"))
  {
    seq(|word|, i requires 0 <= i < |word| => LooseAt(word, guess, i))
  }

  /** The `for` loop of `submitAttempt` that pushes one mark per letter. */
  method MarkLoose(word: string, guess: string) returns (result: seq<Verdict>)
    ensures result == LooseVerdict(word, guess)
  {
    result := [];
    for i := 0 to |word|
      invariant result == LooseVerdict(word, guess)[..i]
    {
      var v: Verdict;
      if i < |guess| && guess[i] == word[i] {
        v := Correct;
      } else if i < |guess| && guess[i] in word {
        v := Present;
      } else if i >= |guess| && Includes(word, "undefined") {
        v := Present;
      } else {
        v := Absent;
      }
      result := result + [v];
    }
  }

  /** The two verdicts mark the same positions `correct`. */
  lemma SameCorrect(word: string, guess: string)
    ensures |LooseVerdict(word, guess)| == |Evaluate(word, guess)|
    ensures forall i :: 0 <= i < |word| ==>
              (LooseVerdict(word, guess)[i] == Correct <==> Evaluate(word, guess)[i] == Correct)
  {
    EvaluateAt(word, guess);
  }

  /** Every position the game's verdict marks non-`absent` is non-`absent`
      in the controller's verdict as well. */
  lemma LooseCoversEvaluate(word: string, guess: string, i: int)
    requires 0 <= i < |word|
    ensures |LooseVerdict(word, guess)| == |Evaluate(word, guess)| == |word|
    ensures Evaluate(word, guess)[i] != Absent ==> LooseVerdict(word, guess)[i] != Absent
  {
    EvaluateAt(word, guess);
    EvaluatePresentInWord(word, guess, i);
  }

  /** The controller's verdict is not limited by letter counts: against
      "abcd", the guess "aaaa" gets every position marked. */
  lemma LooseNotLimited()
    ensures LooseVerdict("abcd", "aaaa") == [Correct, Present, Present, Present]
  {
    var r := LooseVerdict("abcd", "aaaa");
    assert "abcd"[0] == 'a';
    assert r[0] == Correct;
    assert r[1] == Present && r[2] == Present && r[3] == Present;
  }

  /** Marks that leave no `c` of `g` absent credit every `c` of `g`. */
  lemma {:induction false} CreditedAll(g: seq<char>, r: seq<Verdict>, c: char)
    requires |g| == |r|
    requires forall i :: 0 <= i < |g| && g[i] == c ==> r[i] != Absent
    ensures Credited(g, r, c) == multiset(g)[c]
  {
    if g != [] {
      var n := |g| - 1;
      CreditedAll(g[..n], r[..n], c);
      assert g == g[..n] + [g[n]];
    }
  }

  /** For a letter the word contains, the controller's verdict credits every
      copy in the guess, where the game's verdict credits no more copies than
      the word has (`DuplicateLetters`). */
  lemma LooseCreditsAll(word: string, guess: string, c: char)
    requires |guess| == |word| && c in word
    ensures Credited(guess, LooseVerdict(word, guess), c) == multiset(guess)[c]
  {
    CreditedAll(guess, LooseVerdict(word, guess), c);
  }

  // ---------------------------------------------------------------------
  // The handlers
  // ---------------------------------------------------------------------

  /** What `submitAttempt` decides for a non-empty guess `g` once the day's
      challenge is at hand, given the attempt log before the call: six or
      more attempts of the user's own are refused; a word the dictionary
      rejects is refused; otherwise the lower-cased verdict, whether it is
      all `correct`, the user's count including this attempt, and the whole
      seconds since the day key. */
  function Judge(prior: seq<Attempt>, word: string, date: int, u: Id, g: string,
                 isValidWord: string -> bool, now: int): (r: Result<AttemptResponse>)
    ensures r.Err? <==> |OwnAttempts(prior, u)| >= MaxAttempts || !isValidWord(g)
    ensures |OwnAttempts(prior, u)| >= MaxAttempts ==> r == Err(MaxAttemptsReached)
    ensures |OwnAttempts(prior, u)| < MaxAttempts && !isValidWord(g) ==> r == Err(InvalidWord)
    ensures r.Ok? ==> |r.value.result| == |word| && r.value.attempts <= MaxAttempts
    ensures r.Ok? ==> && r.value.result == LooseVerdict(Lower(word), Lower(g))
                      && r.value.attempts == |OwnAttempts(prior, u)| + 1
                      && r.value.time == (now - date) / 1000
    ensures r.Ok? ==> (r.value.isCompleted <==> forall i :: 0 <= i < |word| ==> Exact(Lower(word), Lower(g), i))
  {
    var mine := OwnAttempts(prior, u);
    if |mine| >= MaxAttempts then Err(MaxAttemptsReached)
    else if !isValidWord(g) then Err(InvalidWord)
    else
      var result := LooseVerdict(Lower(word), Lower(g));
      assert forall i :: 0 <= i < |word| ==> (result[i] == Correct <==> Exact(Lower(word), Lower(g), i));
      Ok(AttemptResponse(result, AllCorrect(result), |mine| + 1, (now - date) / 1000))
  }

  /** What one attempt leaves on challenge `c`, whose log and board were
      `prior` and `board`: the answer is `Judge`'s; a refusal keeps the log
      and the board; a success appends the attempt with its score and
      updates the board with that score and the log's new length. */
  ghost predicate Attempted(c: Challenge, prior: seq<Attempt>, board: seq<Entry>, u: Id, g: string,
                            isValidWord: string -> bool, now: int, r: Result<AttemptResponse>)
    reads c
  {
    && r == Judge(prior, c.word, c.date, u, g, isValidWord, now)
    && (r.Err? ==> c.attempts == prior && c.leaderboard == board)
    && (r.Ok? ==>
          var score := ChallengeScore(r.value.result, r.value.time);
          && c.attempts == prior + [Attempt(u, g, r.value.result, r.value.time, score)]
          && c.leaderboard == UpdatedBoard(board, u, score, r.value.time, |c.attempts|))
  }

  /** The part of `submitAttempt` after the day's challenge `c` is fetched:
      the attempt cap, the dictionary check, the verdict, and on success one
      attempt appended and the leaderboard updated. A log in which every
      user is within six attempts stays so. */
  method MakeAttempt(c: Challenge, u: Id, g: string, isValidWord: string -> bool, now: int)
    returns (r: Result<AttemptResponse>)
    requires c.Valid()
    modifies c`attempts, c`leaderboard
    ensures c.Valid()
    ensures Attempted(c, old(c.attempts), old(c.leaderboard), u, g, isValidWord, now, r)
    ensures Capped(old(c.attempts)) ==> Capped(c.attempts)
  {
    // Check if user has already completed the challenge
    var userAttempts := OwnAttempts(c.attempts, u);
    if |userAttempts| >= MaxAttempts {
      return Err(MaxAttemptsReached);
    }

    // Check if word is valid
    if !isValidWord(g) {
      return Err(InvalidWord);
    }

    var result := MarkLoose(Lower(c.word), Lower(g));
    var time := (now - c.date) / 1000;
    ghost var prior := c.attempts;
    c.AddAttempt(u, g, result, time);
    if Capped(prior) {
      CappedKept(prior, Attempt(u, g, result, time, ChallengeScore(result, time)));
    }
    r := Ok(AttemptResponse(result, AllCorrect(result), |userAttempts| + 1, time));
  }

  /** `submitAttempt` for user `u` on day `today` at clock reading `now`. A
      missing or empty guess is refused before the store is touched. The
      day's challenge is then fetched or created; when no word can be drawn
      for it nothing is stored and the handler fails. Otherwise the attempt
      is judged and recorded on that challenge alone; the challenges of
      other days are untouched. */
  method SubmitAttempt(store: ChallengeStore, bank: WordBank, u: Id, guess: Option<string>,
                       isValidWord: string -> bool, today: int, now: int, rnd: real)
    returns (r: Result<AttemptResponse>)
    requires 0.0 <= rnd < 1.0
    requires store.Valid()
    modifies store, store.byDay.Values
    ensures store.Valid()
    ensures forall d :: d in old(store.byDay) && d != today ==>
              d in store.byDay && store.byDay[d] == old(store.byDay)[d] && unchanged(old(store.byDay)[d])
    ensures guess.None? || guess.value == [] ==>
              r == Err(GuessRequired) && store.byDay == old(store.byDay)
              && forall d :: d in store.byDay ==> unchanged(store.byDay[d])
    ensures guess.Some? && guess.value != [] && today !in old(store.byDay)
            && bank.RandomWord(ChallengeLevel, rnd).Err? ==>
              r == Err(NoWordsAvailable) && store.byDay == old(store.byDay)
    ensures guess.Some? && guess.value != [] && today in old(store.byDay) ==>
              var c := old(store.byDay)[today];
              && store.byDay == old(store.byDay)
              && c.date == old(c.date) && c.word == old(c.word) && c.difficulty == old(c.difficulty)
              && Attempted(c, old(c.attempts), old(c.leaderboard), u, guess.value, isValidWord, now, r)
    ensures guess.Some? && guess.value != [] && today !in old(store.byDay)
            && bank.RandomWord(ChallengeLevel, rnd).Ok? ==>
              && today in store.byDay
              && var c := store.byDay[today];
              && fresh(c) && store.byDay == old(store.byDay)[today := c]
              && c.date == today && c.difficulty == ChallengeLevel
              && c.word == bank.RandomWord(ChallengeLevel, rnd).value
              && Attempted(c, [], [], u, guess.value, isValidWord, now, r)
  {
    if guess.None? || guess.value == [] {
      return Err(GuessRequired);
    }
    var challenge := store.GetTodayChallenge(today, bank, rnd);
    if challenge.Err? {
      return Err(challenge.error);
    }
    r := MakeAttempt(challenge.value, u, guess.value, isValidWord, now);
  }

  /** The view the `getTodayChallenge` handler builds from a challenge: the
      user's own attempts, the 1-based position of the user's first entry or
      None, and the first ten entries. */
  function View(c: Challenge, u: Id): (v: ChallengeView)
    reads c
    ensures v.date == c.date && v.difficulty == c.difficulty
    ensures forall a :: a in v.attempts <==> a in c.attempts && a.user == u
    ensures v.position.None? <==> forall j :: 0 <= j < |c.leaderboard| ==> c.leaderboard[j].user != u
    ensures v.position.Some? ==>
              && 1 <= v.position.value <= |c.leaderboard|
              && c.leaderboard[v.position.value - 1].user == u
              && forall j :: 0 <= j < v.position.value - 1 ==> c.leaderboard[j].user != u
    ensures |v.leaderboard| == (if |c.leaderboard| < ViewEntries then |c.leaderboard| else ViewEntries)
    ensures v.leaderboard == c.leaderboard[..|v.leaderboard|]
  {
    var k := FindEntry(c.leaderboard, u);
    ChallengeView(c.date, c.difficulty, OwnAttempts(c.attempts, u),
                  if k != -1 then Some(k + 1) else None,
                  if |c.leaderboard| < ViewEntries then c.leaderboard else c.leaderboard[..ViewEntries])
  }

  /** On a valid challenge every entry above the user's position scores at
      least as much as the user, and the user appears nowhere else. */
  lemma ViewRank(c: Challenge, u: Id)
    requires c.Valid()
    requires View(c, u).position.Some?
    ensures var p := View(c, u).position.value;
            && (forall j :: 0 <= j < p - 1 ==> c.leaderboard[j].score >= c.leaderboard[p - 1].score)
            && (forall j :: p <= j < |c.leaderboard| ==> c.leaderboard[j].user != u)
  {
    var p := View(c, u).position.value;
    var lb := c.leaderboard;
    forall j | p <= j < |lb| ensures lb[j].user != u {
      if lb[j].user == u {
        TwoEntries(lb, p - 1, j, u);
        assert false;
      }
    }
  }

  /** Two entries of the same user make its count at least two. */
  lemma {:induction false} TwoEntries(s: seq<Entry>, i: nat, j: nat, u: Id)
    requires i < j < |s| && s[i].user == u && s[j].user == u
    ensures UserCount(s, u) >= 2
  {
    if i > 0 {
      TwoEntries(s[1..], i - 1, j - 1, u);
    } else {
      OneEntry(s[1..], j - 1, u);
    }
  }

  lemma {:induction false} OneEntry(s: seq<Entry>, j: nat, u: Id)
    requires j < |s| && s[j].user == u
    ensures UserCount(s, u) >= 1
  {
    if j > 0 {
      OneEntry(s[1..], j - 1, u);
    }
  }

  /** The `getTodayChallenge` handler: fetch or create the day's challenge,
      then build the view for user `u`. */
  method TodayView(store: ChallengeStore, bank: WordBank, u: Id, today: int, rnd: real)
    returns (r: Result<ChallengeView>)
    requires 0.0 <= rnd < 1.0
    requires store.Valid()
    modifies store
    ensures store.Valid()
    ensures today in old(store.byDay) ==> store.byDay == old(store.byDay) && r == Ok(View(store.byDay[today], u))
    ensures today !in old(store.byDay) ==>
              (r.Err? <==> bank.RandomWord(ChallengeLevel, rnd).Err?)
              && (r.Err? ==> store.byDay == old(store.byDay))
              && (r.Ok? ==> today in store.byDay && fresh(store.byDay[today])
                            && store.byDay == old(store.byDay)[today := store.byDay[today]]
                            && r == Ok(View(store.byDay[today], u))
                            && r.value.attempts == [] && r.value.position == None && r.value.leaderboard == [])
  {
    var challenge := store.GetTodayChallenge(today, bank, rnd);
    if challenge.Err? {
      return Err(challenge.error);
    }
    r := Ok(View(challenge.value, u));
  }
}
