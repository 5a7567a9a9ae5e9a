/** The game handlers of server/src/routes/game.js: `/new` starts a game at
    the user's highest level, `/guess` scores a guess and ends the game on a
    win or at the sixth guess, `/powerup` records and applies a power-up.
    The database is a sequence of game documents; the handlers find the
    user's active game the way `Game.findOne({ user, status: 'playing' })`
    does, as the first matching document. */
module GameRoutes {
  import opened Types
  import opened GameModel
  import opened UserModel
  import opened WordUtils

  /** Seconds the `extraTime` power-up reports. */
  const ExtraSeconds := 30

  /** What `/guess` answers. */
  datatype GuessResponse = GuessResponse(result: seq<Verdict>, isCorrect: bool, newScore: int, newCombo: int)

  /** The `type` field of a `/powerup` request: one of the schema's three
      power-ups, some other string, or absent. */
  datatype PowerUpRequest = Requested(kind: PowerUpType) | Unlisted(name: string) | NoType

  /** What `/powerup` answers. */
  datatype PowerUpResponse =
    | Revealed(revealedIndex: int, letter: Option<char>)
    | TimeAdded(seconds: int)
    | NewWord(word: string)

  /** The game `/guess` and `/powerup` work on: the index of the first
      playing game of user `uid`, or -1 when there is none. */
  function FindPlaying(games: seq<Game>, uid: Id): (k: int)
    reads games
    ensures -1 <= k < |games|
    ensures k >= 0 ==> games[k].user == uid && games[k].status == Playing
    ensures k >= 0 ==> forall j :: 0 <= j < k ==> !(games[j].user == uid && games[j].status == Playing)
    ensures k == -1 ==> forall j :: 0 <= j < |games| ==> !(games[j].user == uid && games[j].status == Playing)
  {
    if games == [] then -1
    else if games[|games| - 1].user == uid && games[|games| - 1].status == Playing
         && FindPlaying(games[..|games| - 1], uid) == -1 then |games| - 1
    else FindPlaying(games[..|games| - 1], uid)
  }

  /** Every stored game keeps the document invariant. */
  ghost predicate AllValid(games: seq<Game>)
    reads games
  {
    forall j :: 0 <= j < |games| ==> games[j].Valid()
  }

  /** `/new`: a fresh playing game for the user at their highest level, with
      a word drawn for that level; fails when the bank has no word of the
      level's length. Saving it is left to the caller. */
  method StartGame(user: User, bank: WordBank, rnd: real, now: int) returns (r: Result<Game>)
    requires 0.0 <= rnd < 1.0
    ensures r.Err? <==> bank.RandomWord(user.highestLevel, rnd).Err?
    ensures r.Err? ==> r.error == NoWordsAvailable
    ensures r.Ok? ==> && fresh(r.value) && r.value.Valid()
                      && r.value.user == user.id && r.value.level == user.highestLevel
                      && r.value.word == bank.RandomWord(user.highestLevel, rnd).value
                      && r.value.status == Playing && r.value.guesses == [] && r.value.combo == 0
                      && r.value.startTime == now && r.value.powerUpsUsed == []
                      && r.value.score == 0 && r.value.endTime == None && r.value.timeSpent == None
  {
    var level := user.highestLevel;
    var word := bank.RandomWord(level, rnd);
    if word.Err? {
      return Err(word.error);
    }
    var game := new Game(user.id, word.value, level, now);
    r := Ok(game);
  }

  /** The outcome rules of `/guess` for one playing game: the guess is
      appended with its verdict; an all-correct verdict ends the game as won,
      reports it to the user's statistics with the combo as it was, and then
      raises the combo by one; a miss that brings the game to six guesses
      ends it as lost, reports it, and resets the combo to 0; any other miss
      leaves status, score, combo and the user alone. */
  twostate predicate GuessApplied(game: Game, user: User, guess: string, now: int, r: GuessResponse)
    reads game, user
  {
    var verdict := Evaluate(old(game.word), guess);
    && game.user == old(game.user) && game.word == old(game.word) && game.level == old(game.level)
    && game.startTime == old(game.startTime) && game.powerUpsUsed == old(game.powerUpsUsed)
    && game.guesses == old(game.guesses) + [GuessRecord(guess, verdict, now)]
    && r == GuessResponse(verdict, AllCorrect(verdict), game.score, game.combo)
    && (AllCorrect(verdict) ==>
          && game.status == Won && game.endTime == Some(now)
          && game.timeSpent == Some((now - game.startTime) / 1000)
          && game.score == MainScore(game.level, |game.guesses|, game.timeSpent.value, old(game.combo))
          && game.combo == old(game.combo) + 1
          && user.StatsUpdated(GameResult(|game.guesses|, game.timeSpent.value, game.score,
                                          game.level, old(game.combo), true)))
    && (!AllCorrect(verdict) && |game.guesses| >= MaxGuesses ==>
          && game.status == Lost && game.endTime == Some(now)
          && game.timeSpent == Some((now - game.startTime) / 1000)
          && game.score == MainScore(game.level, |game.guesses|, game.timeSpent.value, old(game.combo))
          && game.combo == 0
          && user.StatsUpdated(GameResult(|game.guesses|, game.timeSpent.value, game.score,
                                          game.level, old(game.combo), false)))
    && (!AllCorrect(verdict) && |game.guesses| < MaxGuesses ==>
          && game.status == Playing && game.score == old(game.score) && game.combo == old(game.combo)
          && game.endTime == old(game.endTime) && game.timeSpent == old(game.timeSpent)
          && unchanged(user))
  }

  /** `/guess` for user `user` at clock reading `now`. With no playing game:
      404, nothing changes. Otherwise the first playing game takes the guess
      as `GuessApplied` says, and no other game changes. Every stored game
      keeps at most six guesses. */
  method SubmitGuess(games: seq<Game>, user: User, guess: string, now: int) returns (r: Result<GuessResponse>)
    requires AllValid(games)
    modifies games, user
    ensures AllValid(games)
    ensures old(FindPlaying(games, user.id)) == -1 ==>
              r == Err(NoActiveGame) && unchanged(user) && forall j :: 0 <= j < |games| ==> unchanged(games[j])
    ensures old(FindPlaying(games, user.id)) >= 0 ==>
              var game := games[old(FindPlaying(games, user.id))];
              && (forall j :: 0 <= j < |games| && games[j] != game ==> unchanged(games[j]))
              && r.Ok? && GuessApplied(game, user, guess, now, r.value)
  {
    var k := FindPlaying(games, user.id);
    if k == -1 {
      return Err(NoActiveGame);
    }
    var game := games[k];
    var response := Guess(game, user, guess, now);
    r := Ok(response);
  }

  /** The body of `/guess` once the playing game has been found. */
  method Guess(game: Game, user: User, guess: string, now: int) returns (response: GuessResponse)
    requires game.Valid() && game.status == Playing
    modifies game, user
    ensures game.Valid()
    ensures GuessApplied(game, user, guess, now, response)
  {
    // Check guess
    var result := game.CheckGuess(guess);
    game.guesses := game.guesses + [GuessRecord(guess, result, now)];

    // Check if won
    var isCorrect := AllCorrect(result);
    if isCorrect {
      Finish(game, user, true, now);
    } else if |game.guesses| >= MaxGuesses {
      Finish(game, user, false, now);
    }
    response := GuessResponse(result, isCorrect, game.score, game.combo);
  }

  /** The end of a game inside `/guess`: `endGame` with the outcome, the
      result reported to `updateStats` with the combo as it was, then the
      combo raised by one on a win or reset to 0 on a loss. */
  method Finish(game: Game, user: User, won: bool, now: int)
    requires |game.guesses| <= MaxGuesses && game.combo >= 0
    modifies game`status, game`endTime, game`timeSpent, game`score, game`combo, user
    ensures game.status == (if won then Won else Lost) && game.endTime == Some(now)
    ensures game.timeSpent == Some((now - game.startTime) / 1000)
    ensures game.score == MainScore(game.level, |game.guesses|, game.timeSpent.value, old(game.combo))
    ensures game.combo == if won then old(game.combo) + 1 else 0
    ensures user.StatsUpdated(GameResult(|game.guesses|, game.timeSpent.value, game.score,
                                         game.level, old(game.combo), won))
  {
    game.EndGame(if won then Won else Lost, now);
    user.UpdateStats(GameResult(|game.guesses|, game.timeSpent.value, game.score, game.level, game.combo, won));
    game.combo := if won then game.combo + 1 else 0;
  }

  /** `/powerup` for user `uid`. With no playing game: 404, nothing changes.
      A type the schema does not list fails validation on the first save and
      nothing is stored. Otherwise one usage record is appended and kept even
      when the handler then fails: a missing type gives "Invalid power-up
      type"; `letterReveal` returns a random position of the word and its
      letter; `extraTime` reports 30 seconds; `wordSkip` draws a new word for
      the game's level and keeps the guesses, or fails, keeping the word,
      when the bank has none. Other games are untouched. */
  method UsePowerUp(games: seq<Game>, bank: WordBank, uid: Id, req: PowerUpRequest, rnd: real, now: int)
    returns (r: Result<PowerUpResponse>)
    requires 0.0 <= rnd < 1.0
    requires AllValid(games)
    modifies games
    ensures AllValid(games)
    ensures old(FindPlaying(games, uid)) == -1 ==>
              r == Err(NoActiveGame) && forall j :: 0 <= j < |games| ==> unchanged(games[j])
    ensures old(FindPlaying(games, uid)) >= 0 ==>
              var game := games[old(FindPlaying(games, uid))];
              && (forall j :: 0 <= j < |games| && games[j] != game ==> unchanged(games[j]))
              && game.guesses == old(game.guesses) && game.status == Playing
              && game.score == old(game.score) && game.combo == old(game.combo)
              && game.level == old(game.level) && game.user == old(game.user)
              && game.startTime == old(game.startTime) && game.endTime == old(game.endTime)
              && game.timeSpent == old(game.timeSpent)
              && (req.Unlisted? ==> r == Err(ValidationFailed) && unchanged(game))
              && (!req.Unlisted? ==>
                    game.powerUpsUsed == old(game.powerUpsUsed)
                      + [PowerUpUse(if req.Requested? then Some(req.kind) else None, now)])
              && (req.NoType? ==> r == Err(InvalidPowerUp) && game.word == old(game.word))
              && (req == Requested(LetterReveal) ==>
                    && game.word == old(game.word) && r.Ok? && r.value.Revealed?
                    && (|game.word| > 0 ==>
                          0 <= r.value.revealedIndex < |game.word|
                          && r.value.letter == Some(game.word[r.value.revealedIndex]))
                    && (|game.word| == 0 ==> r.value.letter == None))
              && (req == Requested(ExtraTime) ==>
                    game.word == old(game.word) && r == Ok(TimeAdded(ExtraSeconds)))
              && (req == Requested(WordSkip) ==>
                    var drawn := bank.RandomWord(game.level, rnd);
                    && (drawn.Err? ==> r == Err(NoWordsAvailable) && game.word == old(game.word))
                    && (drawn.Ok? ==> r == Ok(NewWord(drawn.value)) && game.word == drawn.value))
  {
    var k := FindPlaying(games, uid);
    if k == -1 {
      return Err(NoActiveGame);
    }
    var game := games[k];
    if req.Unlisted? {
      // the schema's enum rejects the type when the record is saved
      return Err(ValidationFailed);
    }

    // Record power-up usage
    game.powerUpsUsed := game.powerUpsUsed + [PowerUpUse(if req.Requested? then Some(req.kind) else None, now)];

    if req.NoType? {
      return Err(InvalidPowerUp);
    }
    match req.kind
    case LetterReveal =>
      // Math.floor(Math.random() * 0) is 0, and word[0] of an empty word is undefined
      var revealedIndex := if |game.word| > 0 then RandomIndex(rnd, |game.word|) else 0;
      var letter := if revealedIndex < |game.word| then Some(game.word[revealedIndex]) else None;
      r := Ok(Revealed(revealedIndex, letter));
    case ExtraTime =>
      r := Ok(TimeAdded(ExtraSeconds));
    case WordSkip =>
      var newWord := bank.RandomWord(game.level, rnd);
      if newWord.Err? {
        return Err(newWord.error);
      }
      game.word := newWord.value;
      r := Ok(NewWord(newWord.value));
  }
}
