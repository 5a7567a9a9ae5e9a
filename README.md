# wordtower game engine, modelled in Dafny

This project models the server-side engine of wordtower, a word-guessing
game. A player guesses a secret word of 4 to 8 letters in at most six tries,
gets a per-letter verdict (`correct`, `present`, `absent`) and climbs
levels. The modelled parts are:

- **Word bank** (`word_utils.dfy`, `server/src/utils/wordUtils.js`): words
  are bucketed by length 4..8. A level maps to a word length, and a word is
  drawn at random from that bucket, or the call fails when the bucket is
  empty.
- **Game document** (`game_model.dfy`, `server/src/models/Game.js`): the
  two-pass `checkGuess` over array copies of the secret and the guess, and
  the scoring of `calculateScore` and `endGame`.
  - The method `Game.CheckGuess` keeps the arrays, the two loops and
    `indexOf`.
  - It is proved equal to `Evaluate`, a closed-form reference definition.
    A loose letter (one that is not an exact match) is `present` while
    fewer loose copies of it came earlier than the secret has copies left
    over after the exact matches.
- **Game routes** (`game_routes.dfy`, `server/src/routes/game.js`):
  - `/new` starts a game at the user's highest level.
  - `/guess` records the guess. It ends the game as won on an all-correct
    verdict, or as lost at the sixth guess. It reports the game to the
    user's statistics and raises or resets the combo.
  - `/powerup` records the power-up and applies it.
  - The database is a sequence of `Game` objects, searched as
    `findOne({ user, status: 'playing' })` does.
- **Daily challenge** (`challenge_model.dfy`, `server/src/models/Challenge.js`):
  - Find or create the challenge for the day, in a store keyed by day.
  - The challenge score.
  - The attempt log.
  - The leaderboard keeps the best score per user. It is stable-sorted by
    descending score and cut to 100 entries.
- **Challenge controller** (`challenge_controller.dfy`,
  `server/src/controllers/challengeController.js`):
  - `submitAttempt`: the guess-required, six-attempt and dictionary guards,
    then its own single-pass verdict on lower-cased strings, the time and
    the completion flag.
  - The view of today's challenge: the user's own attempts, the 1-based
    position and the top ten.
- **User document** (`user_model.dfy`, `server/src/models/User.js`):
  `updateStats` and the built-in achievement check.
- **Configurable achievements** (`achievement_model.dfy`,
  `server/src/models/Achievement.js`, and `achievement_controller.dfy`,
  `server/src/controllers/achievementController.js`):
  - The per-achievement rule and the catalogue check.
  - The reward grant.
  - The check-and-grant handler.
  - The progress report.

Objects that the source mutates in place are Dafny classes with `modifies`
clauses: `WordBank`, `Game`, `User`, `Challenge` and `ChallengeStore`. Each
method is specified against pure functions (`Evaluate`, `UpdatedBoard`,
`NewAwards`, `Earned`, `Judge`). Inputs from the environment become
parameters:
- `Math.random()` is a real `rnd` with `0 <= rnd < 1`.
- The clock is an integer number of milliseconds.
- The day key is an integer.
- The dictionary check is a predicate.
- `User.findById` is an `Option` or a possibly-null `User`.
- Errors the handlers send as HTTP statuses are `Err` values of `Result`.

## Behaviour of the code worth noting

- `checkGuess` has no length check. A guess shorter than the secret has
  `undefined` letters, which are never matched. A longer guess has its extra
  letters ignored.
- For the secret "SPEED" and the guess "ERASE", the code gives
  [present, absent, absent, present, present]
  (`GameModel.RepeatedLetterExample`).
- `Achievement.checkAchievements` evaluates the catalogue in order and
  returns a list.
- The challenge controller computes its own verdict, which does not limit
  repeated letters.

## Model

| member | source | states |
|---|---|---|
| Types.CountCorrect | server/src/models/Challenge.js:87 | the number of `correct` marks is at most the verdict's length, and equals it exactly when every mark is `correct` |
| Types.RandomIndex | server/src/utils/wordUtils.js:52 | `Math.floor(Math.random() * n)` is an index below `n` |
| WordUtils.OfLengthMembers | server/src/utils/wordUtils.js:23-28 | a word lands in bucket `k` exactly when it occurs in the input and has length `k` |
| WordUtils.LengthForLevel | server/src/utils/wordUtils.js:40-45 | every level asks for a length between 4 and 8 |
| WordUtils.LengthForLevelMonotone | server/src/utils/wordUtils.js:40-45 | a higher level never asks for a shorter word |
| WordUtils.WordBank.constructor | server/src/utils/wordUtils.js:5-11 | the five buckets 4..8 start empty |
| WordUtils.WordBank.Load | server/src/utils/wordUtils.js:23-28 | each bucket gets the input's words of its length appended in input order; other lengths are dropped; buckets hold only words of their length |
| WordUtils.WordBank.RandomWord | server/src/utils/wordUtils.js:38-54 | fails with "no words" exactly when the level's bucket is empty; otherwise returns a word of that bucket, of the level's length |
| GameModel.EvaluateAt | server/src/models/Game.js:80-108 | one verdict per letter of the secret; `correct` exactly where the guess has the secret's letter; `present` only at a position whose letter differs from the secret's |
| GameModel.EvaluateSelf | server/src/models/Game.js:85-92 | guessing the secret gives all `correct` |
| GameModel.EvaluateAllCorrect | server/src/models/Game.js:85-92 | the verdict is all `correct` exactly when the guess starts with the secret |
| GameModel.EvaluatePresentInWord | server/src/models/Game.js:94-105 | a `present` mark is only given to a letter the secret contains |
| GameModel.PresentLeftToRight | server/src/models/Game.js:95-101 | copies are consumed left to right: if a loose letter is `present`, every earlier loose copy of it is `present` too |
| GameModel.CreditedPrefix | server/src/models/Game.js:94-105 | over the first `i` positions, the non-absent copies of a letter are its exact matches plus as many loose copies as the unconsumed pool allows |
| GameModel.DuplicateLetters | server/src/models/Game.js:80-108 | for equal lengths, the guess's copies of each letter that are marked `correct` or `present` number the smaller of its count in the guess and its count in the secret |
| GameModel.RepeatedLetterExample | server/src/models/Game.js:94-105 | "ERASE" against "SPEED" gives [present, absent, absent, present, present] |
| GameModel.TimeBonus | server/src/models/Game.js:69 | the time bonus is never negative, is at most 600 for a non-negative time, and is 0 exactly from 300 seconds on |
| GameModel.ScoreMonotoneTime | server/src/models/Game.js:66-77 | a slower game never scores more |
| GameModel.ScoreMonotoneGuesses | server/src/models/Game.js:66-77 | using more guesses never scores more |
| GameModel.ScoreMonotoneLevel | server/src/models/Game.js:66-77 | a higher level never scores less |
| GameModel.ScoreMonotoneCombo | server/src/models/Game.js:66-77 | a longer combo never scores less |
| GameModel.Game.constructor | server/src/models/Game.js:3-63 | a new game is playing with no guesses, score and combo 0, started now, with no end time, no time spent and no power-ups |
| GameModel.Game.CheckGuess | server/src/models/Game.js:80-108 | the two passes over the array copies return exactly `Evaluate(word, guess)` |
| GameModel.MarkExact | server/src/models/Game.js:85-92 | pass one nulls out exactly the exact matches in both copies and marks them `correct` |
| GameModel.MarkPresent | server/src/models/Game.js:94-105 | pass two leaves the whole verdict equal to `Evaluate`, with the unconsumed-letter invariant kept at every step |
| GameModel.MarkOne | server/src/models/Game.js:96-104 | one round marks position `i` with its verdict and consumes one copy of the letter exactly when the mark is `present` |
| GameModel.IndexOf | server/src/models/Game.js:98 | `indexOf` gives the first index holding the letter, or -1 when there is none |
| GameModel.Game.CalculateScore | server/src/models/Game.js:66-77 | stores and returns `floor((level*100 + (6-guesses)*50 + timeBonus) * (1 + combo/10))` |
| GameModel.Game.EndGame | server/src/models/Game.js:111-116 | sets the status, stamps the end time, sets the whole seconds since the start, and scores the game |
| GameRoutes.FindPlaying | server/src/routes/game.js:37-40 | the first game of the user that is playing, or -1 when there is none |
| GameRoutes.StartGame | server/src/routes/game.js:9-31 | a fresh playing game at the user's highest level with the word the bank draws for it, score and combo 0, started now, with no end time, no guesses and no power-ups; fails exactly when the bank has none |
| GameRoutes.SubmitGuess | server/src/routes/game.js:34-99 | 404 with nothing changed when no game is playing; otherwise the guess is applied to the first playing game only; every game keeps at most six guesses |
| GameRoutes.Guess | server/src/routes/game.js:46-95 | the guess is appended with its verdict; a win ends the game, reports it with the old combo and raises the combo; a sixth miss ends it as lost and resets the combo; any other miss changes nothing else |
| GameRoutes.Finish | server/src/routes/game.js:52-86 | `endGame`, then `updateStats` with the combo as it was, then the combo raised by one or reset to 0 |
| GameRoutes.UsePowerUp | server/src/routes/game.js:102-144 | 404 when no game is playing; an unlisted type stores nothing; otherwise one usage record is kept; a missing type fails; letterReveal returns a position of the word and its letter; extraTime reports 30; wordSkip swaps in a drawn word or fails keeping the old one; the game's owner, clock, guesses, status, score, combo and level are kept, and other games are untouched |
| ChallengeModel.ChallengeScore | server/src/models/Challenge.js:84-90 | the score is at least 1000 plus 100 per `correct`, at most 600 more for a non-negative time, and exactly that from 60 seconds on |
| ChallengeModel.ChallengeScoreTime | server/src/models/Challenge.js:86 | taking longer never raises the score |
| ChallengeModel.ChallengeScoreAccuracy | server/src/models/Challenge.js:87 | at the same time, scores differ by exactly 100 per `correct` mark |
| ChallengeModel.FindEntry | server/src/models/Challenge.js:94 | the index of the user's first entry, or -1 when the user has none |
| ChallengeModel.SortFacts | server/src/models/Challenge.js:112 | the sort gives non-increasing scores and a permutation of its input |
| ChallengeModel.SortStable | server/src/models/Challenge.js:112 | entries with equal scores keep their order |
| ChallengeModel.SortSorted | server/src/models/Challenge.js:112 | sorting a board already in order changes nothing |
| ChallengeModel.UpsertBest | server/src/models/Challenge.js:94-109 | the user's entry ends with the better of the old and new scores, a new user adds exactly one entry, and other entries are untouched |
| ChallengeModel.NoOverwrite | server/src/models/Challenge.js:96-101 | a score that does not beat the user's entry leaves an ordered board of at most 100 entries as it was |
| ChallengeModel.BoardShape | server/src/models/Challenge.js:111-115 | the updated board is sorted, holds exactly the first 100 entries of the sorted upsert (all of them when there are fewer), and holds only its entries |
| ChallengeModel.OnePerUserKept | server/src/models/Challenge.js:93-116 | a board with at most one entry per user keeps that property |
| ChallengeModel.Challenge.constructor | server/src/models/Challenge.js:55-59 | the created challenge has the day, word and difficulty given and empty lists |
| ChallengeModel.Challenge.AddAttempt | server/src/models/Challenge.js:66-81 | appends one attempt carrying its score, and updates the board with that score and the log's new length |
| ChallengeModel.Challenge.UpdateLeaderboard | server/src/models/Challenge.js:93-116 | the board becomes `UpdatedBoard` of the old one, and stays sorted, capped and one entry per user |
| ChallengeModel.ChallengeStore.GetTodayChallenge | server/src/models/Challenge.js:46-63 | returns the day's stored challenge unchanged; otherwise creates and stores one at difficulty 3 with a word drawn for level 3; or fails storing nothing |
| ChallengeController.OwnAttempts | server/src/controllers/challengeController.js:50-52 | exactly the log's attempts by the user |
| ChallengeController.CappedKept | server/src/controllers/challengeController.js:50-56 | an attempt admitted by the six-attempt guard keeps every user within six |
| ChallengeController.Lower | server/src/controllers/challengeController.js:66-67 | lower-casing keeps the length and maps A..Z to a..z |
| ChallengeController.LooseVerdict | server/src/controllers/challengeController.js:69-77 | one mark per word letter; `correct` exactly on a match; off a match, `present` exactly when the word contains the guessed letter and `absent` otherwise; past the guess's end, `present` exactly when the word contains the text "undefined" |
| ChallengeController.MarkLoose | server/src/controllers/challengeController.js:65-77 | the loop pushes exactly `LooseVerdict` |
| ChallengeController.SameCorrect | server/src/controllers/challengeController.js:69-71 | the controller's verdict and the game's verdict mark the same positions `correct` |
| ChallengeController.LooseCoversEvaluate | server/src/controllers/challengeController.js:69-77 | every position the game's verdict marks non-absent is non-absent in the controller's verdict |
| ChallengeController.LooseNotLimited | server/src/controllers/challengeController.js:72-73 | "aaaa" against "abcd" gets every position marked, unlike the game's verdict |
| ChallengeController.LooseCreditsAll | server/src/controllers/challengeController.js:72-73 | for a letter the word contains, every copy in the guess is credited, with no limit by count |
| ChallengeController.Judge | server/src/controllers/challengeController.js:49-93 | refused with "max attempts" at six own attempts, else with "invalid word" for a rejected word; otherwise the lower-cased verdict, completed exactly when all letters match case-insensitively, the user's prior attempts plus one (at most six), and the whole seconds since the day key |
| ChallengeController.MakeAttempt | server/src/controllers/challengeController.js:49-93 | `Attempted`: answers as `Judge` on the log before the call; a refusal changes nothing; success appends the attempt with its score and sets the board to `UpdatedBoard`; the board stays valid and the six-attempt cap is kept |
| ChallengeController.SubmitAttempt | server/src/controllers/challengeController.js:39-97 | a missing or empty guess is refused with nothing changed; otherwise today's stored challenge, keeping its day, word and difficulty, or a new one stored under today with the drawn word, gets exactly the attempt `Attempted` describes; a day with no drawable word stores nothing; other days' challenges are untouched and every stored board stays valid |
| ChallengeController.View | server/src/controllers/challengeController.js:9-31 | the user's own attempts, the 1-based position of the user's first entry or null, and the first ten entries |
| ChallengeController.ViewRank | server/src/controllers/challengeController.js:15-24 | on a valid board, everyone above the user's position scores at least as much and the user appears nowhere else |
| ChallengeController.TodayView | server/src/controllers/challengeController.js:5-36 | the view of the stored challenge with the store unchanged; or a new challenge stored under today and nothing else, with no attempts, no position and an empty board; or a failure with the store unchanged |
| UserModel.NewAwardsMembers | server/src/models/User.js:121-145 | exactly the built-in awards whose threshold is met and that are not yet held are added; PERFECT_GAME never |
| UserModel.NewAwardsOrdered | server/src/models/User.js:121-145 | new awards come in test order, each at most once |
| UserModel.NewAwardsOnce | server/src/models/User.js:121-145 | checking again after the awards are added awards nothing |
| UserModel.NextFastest | server/src/models/User.js:109-111 | a win records the game's time exactly when no record is set (null or 0) or the time is strictly faster; otherwise the record is kept |
| UserModel.User.constructor | server/src/models/User.js:26-66 | a new user has the schema's defaults |
| UserModel.User.CheckAchievements | server/src/models/User.js:121-145 | appends and returns exactly `NewAwards` of the held list |
| UserModel.User.UpdateStats | server/src/models/User.js:93-118 | one more game played, one more won on a win, score added, highest level and longest combo raised, fastest solve updated, new awards appended, nothing else changed, counters kept consistent |
| AchievementModel.CheckAchievement | server/src/models/Achievement.js:64-101 | never for a missing user or an achievement already held, and never for an unknown requirement kind |
| AchievementModel.CheckMonotone | server/src/models/Achievement.js:76-100 | raising statistics never takes an earned achievement away |
| AchievementModel.CheckHeldMonotone | server/src/models/Achievement.js:70-73 | a longer held list never makes an achievement earned |
| AchievementModel.Earned | server/src/models/Achievement.js:49-61 | exactly the catalogue entries the rule approves, and never more entries than the catalogue holds |
| AchievementModel.EarnedAppend | server/src/models/Achievement.js:53-58 | one more catalogue entry is appended to the result exactly when the rule approves it, so the result keeps catalogue order |
| AchievementModel.CheckAchievements | server/src/models/Achievement.js:49-61 | the loop returns `Earned` in catalogue order |
| AchievementModel.GrantReward | server/src/models/Achievement.js:104-132 | on an existing user: the id appended, exactly one reward field changed by the reward kind, all else kept; a missing user changes nothing |
| AchievementController.Snapshot | server/src/controllers/achievementController.js:41-49 | the statistics object carries the user's counters as they are and the length of `friends` as the social count; on a consistent user wins never exceed games |
| AchievementController.HasEarned | server/src/controllers/achievementController.js:87 | an achievement the user holds is one the rule never grants again, whatever the statistics |
| AchievementController.CurrentValue | server/src/controllers/achievementController.js:88-113 | the statistic the requirement kind names, the social count for `social`, and 0 for a kind outside the seven |
| AchievementController.CurrentValueMonotone | server/src/controllers/achievementController.js:88-113 | the reported current value never falls when the statistics rise |
| AchievementController.CheckAchievementsFor | server/src/controllers/achievementController.js:36-66 | a missing user fails; otherwise the earned list from the entry snapshot, each granted once in order; every field but the achievement list and the three reward fields is kept (`StatsKept`) |
| AchievementController.GrantAll | server/src/controllers/achievementController.js:55-57 | granting a list appends its ids, adds its points and pushes its power-ups and badges in order; every other field is kept |
| AchievementController.RecheckEmpty | server/src/controllers/achievementController.js:52-57 | checking again after the grants, with the same statistics, earns nothing |
| AchievementController.ProgressAgrees | server/src/controllers/achievementController.js:87-113 | the reported current value reaches the target exactly when the rule would grant a not-yet-held achievement; unknown kinds report 0 |
| AchievementController.AchievementProgress | server/src/controllers/achievementController.js:69-129 | one report per catalogue entry, each with its id, target and held flag, agreeing with `checkAchievement` |

## Left out

- Reading `data/words.json` and the exit on failure are not modelled. `WordBank.Load` takes the parsed word list.
- Persistence (`save`, `create`, `find`) is not modelled. Objects are updated in place and stores are sequences or maps. `StartGame` returns the new game without storing it.
- Concurrency between requests, the authentication middleware and the HTTP layer are not modelled. A handler's failure is an `Err` value.
- The `/history` route, `getChallengeHistory`, `getAchievements`, `getUserAchievements` (their `populate` calls) and `comparePassword` (bcrypt) are not modelled.
- `stats.averageGuesses` in `updateStats` is not modelled (floating-point division).
- The `progress` percentage of `getAchievementProgress` is not modelled (floating-point division).
- GameModel.Game.CalculateScore: the combo multiplier `1 + combo * 0.1` is taken as the exact rational `(10 + combo) / 10`. Floating-point rounding near an integer is not modelled.
- `Date` arithmetic uses integer milliseconds. The challenge's day key is an integer given by the caller; computing local midnight with `setHours(0, 0, 0, 0)` is not modelled.
- `checkWord` is imported from `wordUtils.js`, but that module does not export it. The dictionary check is therefore a predicate parameter, and the model does not capture the call failing.
- ChallengeController.Lower: `toLowerCase` is modelled on the letters A to Z only; other Unicode case mappings are not modelled.
- A request body whose `guess` is not a string (a missing `guess` in `/guess`, or a number in `submitAttempt`) is not modelled. `/guess` takes a string, and `submitAttempt` takes an optional string.
- A user deleted between authentication and the handler in `/new` and `/guess` is not modelled. In `checkAchievements` it is: the user is a possibly-null `User`.
- AchievementController.AchievementProgress: `getAchievementProgress` reads the looked-up user without a null check, so a missing user ends in a server error. The model takes an existing user and does not model that failure.
- AchievementModel.CheckAchievement: the user is looked up once per call of `checkAchievements`, not once per catalogue entry. Nothing changes the user while the loop runs.
- The user record follows the fields the achievement code reads and writes: `totalScore`, `currentStreak`, `challengesCompleted`, `perfectGames`, `friends`, `points`, `powerups`, `badges`.
  - The `User` schema in `server/src/models/User.js` declares none of these.
  - Its `achievements` enum admits only the seven built-in names.
  - The model does not capture Mongoose dropping undeclared fields or rejecting a granted achievement id at `save`.
- Requirement and reward types outside the schema's enums are kept as `RequireOther` and `OtherReward`. They never match, and they grant nothing.
