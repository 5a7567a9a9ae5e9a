/** The user document of server/src/models/User.js: cumulative statistics
    updated after each game by `updateStats`, and the built-in achievement
    list applied by `checkAchievements`. The record also carries the fields
    the configurable achievement rules read and write (totalScore,
    currentStreak, challengesCompleted, perfectGames, friends, points,
    powerups, badges). */
module UserModel {
  import opened Types

  /** What `/guess` reports of a finished game. */
  datatype GameResult = GameResult(guesses: int, timeSpent: int, score: int, level: int, combo: int, won: bool)

  /** One entry of `powerups`: `{ type: reward.value, quantity: 1 }`. */
  datatype PowerupGrant = PowerupGrant(kind: int, quantity: int)

  /** An entry of the user's `achievements`: one of the schema's seven
      built-in names, or the id of a configurable achievement granted by
      the achievement rules. */
  datatype Award =
    | FirstWin | Level5 | Level10 | Score1000 | Score5000 | PerfectGame | SpeedDemon
    | AchievementId(id: Id)

  /** The order in which `checkAchievements` tests the built-in awards. */
  const AwardOrder := [FirstWin, Level5, Level10, Score1000, Score5000, SpeedDemon]

  /** Position of an award in `AwardOrder` (6 for anything else). */
  function Rank(a: Award): nat
  {
    match a
    case FirstWin => 0
    case Level5 => 1
    case Level10 => 2
    case Score1000 => 3
    case Score5000 => 4
    case SpeedDemon => 5
    case _ => 6
  }

  /** JavaScript truthiness of `stats.fastestSolve`: set and not 0. */
  predicate Truthy(v: Option<int>)
  {
    v.Some? && v.value != 0
  }

  /** The threshold of each built-in award: FIRST_WIN needs exactly one
      win, LEVEL_5 and LEVEL_10 a highest level of 5 and 10, SCORE_1000 and
      SCORE_5000 a total score of 1000 and 5000, SPEED_DEMON a fastest solve
      that is set, non-zero and under 60 seconds. PERFECT_GAME has none. */
  predicate Qualifies(a: Award, gamesWon: int, highestLevel: int, score: int, fastestSolve: Option<int>)
  {
    match a
    case FirstWin => gamesWon == 1
    case Level5 => highestLevel >= 5
    case Level10 => highestLevel >= 10
    case Score1000 => score >= 1000
    case Score5000 => score >= 5000
    case SpeedDemon => Truthy(fastestSolve) && fastestSolve.value < 60
    case _ => false
  }

  /** One `if (...) newAchievements.push(a)` step of `checkAchievements`. */
  function Add(acc: seq<Award>, a: Award, meets: bool, held: seq<Award>): seq<Award>
  {
    if meets && a !in held then acc + [a] else acc
  }

  /** `checkAchievements`: the built-in awards whose threshold the statistics
      meet and that are not yet held, in the order they are tested. */
  function NewAwards(gamesWon: int, highestLevel: int, score: int, fastestSolve: Option<int>,
                     held: seq<Award>): seq<Award>
  {
    var r1 := Add([], FirstWin, gamesWon == 1, held);
    var r2 := Add(r1, Level5, highestLevel >= 5, held);
    var r3 := Add(r2, Level10, highestLevel >= 10, held);
    var r4 := Add(r3, Score1000, score >= 1000, held);
    var r5 := Add(r4, Score5000, score >= 5000, held);
    Add(r5, SpeedDemon, Truthy(fastestSolve) && fastestSolve.value < 60, held)
  }

  /** Exactly the qualifying awards not yet held are added: FIRST_WIN on
      exactly one win, LEVEL_5/LEVEL_10 at highest level 5/10, SCORE_1000/
      SCORE_5000 at total score 1000/5000, SPEED_DEMON on a set, non-zero
      fastest solve under 60 seconds, and never PERFECT_GAME or a
      configurable achievement's id. */
  lemma NewAwardsMembers(gamesWon: int, highestLevel: int, score: int, fastestSolve: Option<int>,
                         held: seq<Award>, a: Award)
    ensures a in NewAwards(gamesWon, highestLevel, score, fastestSolve, held)
            <==> a in AwardOrder && Qualifies(a, gamesWon, highestLevel, score, fastestSolve) && a !in held
  {
    var r1 := Add([], FirstWin, gamesWon == 1, held);
    var r2 := Add(r1, Level5, highestLevel >= 5, held);
    var r3 := Add(r2, Level10, highestLevel >= 10, held);
    var r4 := Add(r3, Score1000, score >= 1000, held);
    var r5 := Add(r4, Score5000, score >= 5000, held);
    var r6 := Add(r5, SpeedDemon, Truthy(fastestSolve) && fastestSolve.value < 60, held);
    assert a in r1 <==> a == FirstWin && gamesWon == 1 && a !in held;
    assert a in r2 <==> a in r1 || (a == Level5 && highestLevel >= 5 && a !in held);
    assert a in r3 <==> a in r2 || (a == Level10 && highestLevel >= 10 && a !in held);
    assert a in r4 <==> a in r3 || (a == Score1000 && score >= 1000 && a !in held);
    assert a in r5 <==> a in r4 || (a == Score5000 && score >= 5000 && a !in held);
    assert a in r6 <==> a in r5 || (a == SpeedDemon && Truthy(fastestSolve) && fastestSolve.value < 60 && a !in held);
  }

  /** Ranks strictly increase along `s`: no repeats, in `AwardOrder`'s order. */
  predicate Ordered(s: seq<Award>)
  {
    forall i, j :: 0 <= i < j < |s| ==> Rank(s[i]) < Rank(s[j])
  }

  /** Every award in `s` ranks below `n`. */
  predicate Below(s: seq<Award>, n: nat)
  {
    forall i :: 0 <= i < |s| ==> Rank(s[i]) < n
  }

  lemma AddOrdered(acc: seq<Award>, a: Award, meets: bool, held: seq<Award>)
    requires Ordered(acc) && Below(acc, Rank(a))
    ensures Ordered(Add(acc, a, meets, held)) && Below(Add(acc, a, meets, held), Rank(a) + 1)
  {
  }

  /** The first three tests of `checkAchievements` give ranks below 3, in order. */
  lemma LevelAwardsOrdered(gamesWon: int, highestLevel: int, held: seq<Award>)
    ensures var r := Add(Add(Add([], FirstWin, gamesWon == 1, held), Level5, highestLevel >= 5, held),
                         Level10, highestLevel >= 10, held);
            Ordered(r) && Below(r, 3)
  {
    var r1 := Add([], FirstWin, gamesWon == 1, held);
    AddOrdered([], FirstWin, gamesWon == 1, held);
    var r2 := Add(r1, Level5, highestLevel >= 5, held);
    AddOrdered(r1, Level5, highestLevel >= 5, held);
    AddOrdered(r2, Level10, highestLevel >= 10, held);
  }

  /** The awards come out in `AwardOrder`, each at most once. */
  lemma NewAwardsOrdered(gamesWon: int, highestLevel: int, score: int, fastestSolve: Option<int>, held: seq<Award>)
    ensures Ordered(NewAwards(gamesWon, highestLevel, score, fastestSolve, held))
  {
    var r3 := Add(Add(Add([], FirstWin, gamesWon == 1, held), Level5, highestLevel >= 5, held),
                  Level10, highestLevel >= 10, held);
    LevelAwardsOrdered(gamesWon, highestLevel, held);
    var r4 := Add(r3, Score1000, score >= 1000, held);
    AddOrdered(r3, Score1000, score >= 1000, held);
    var r5 := Add(r4, Score5000, score >= 5000, held);
    AddOrdered(r4, Score5000, score >= 5000, held);
    AddOrdered(r5, SpeedDemon, Truthy(fastestSolve) && fastestSolve.value < 60, held);
  }

  /** Nothing is awarded twice: once the new awards are added to the held
      list, checking again with the same statistics awards nothing. */
  lemma NewAwardsOnce(gamesWon: int, highestLevel: int, score: int, fastestSolve: Option<int>, held: seq<Award>)
    ensures NewAwards(gamesWon, highestLevel, score, fastestSolve,
                      held + NewAwards(gamesWon, highestLevel, score, fastestSolve, held)) == []
  {
    var r := NewAwards(gamesWon, highestLevel, score, fastestSolve, held);
    var again := NewAwards(gamesWon, highestLevel, score, fastestSolve, held + r);
    if again != [] {
      var a := again[0];
      NewAwardsMembers(gamesWon, highestLevel, score, fastestSolve, held + r, a);
      NewAwardsMembers(gamesWon, highestLevel, score, fastestSolve, held, a);
    }
  }

  /** The `fastestSolve` that `updateStats` leaves: set to the game's time on
      a win when unset or 0 or beaten strictly, otherwise kept. */
  function NextFastest(prev: Option<int>, won: bool, timeSpent: int): (f: Option<int>)
    ensures !won ==> f == prev
    ensures won && Truthy(prev) && prev.value <= timeSpent ==> f == prev
    ensures f != prev ==> won && f == Some(timeSpent)
    ensures won && (!Truthy(prev) || timeSpent < prev.value) ==> f == Some(timeSpent)
    ensures won && f.Some? && Truthy(prev) ==> f.value <= prev.value
  {
    if won && (!Truthy(prev) || timeSpent < prev.value) then Some(timeSpent) else prev
  }

  function Max(a: int, b: int): (m: int)
    ensures m >= a && m >= b && (m == a || m == b)
  {
    if a >= b then a else b
  }

  class User {
    var id: Id
    var score: int
    var highestLevel: int
    var gamesPlayed: int
    var gamesWon: int
    var achievements: seq<Award>
    /** `stats.fastestSolve`: None is the schema's default null. */
    var fastestSolve: Option<int>
    var longestCombo: int
    var totalScore: int
    var currentStreak: int
    var challengesCompleted: int
    var perfectGames: int
    var friends: seq<Id>
    var points: int
    var powerups: seq<PowerupGrant>
    var badges: seq<int>

    /** The counters stay consistent: never negative, never more wins than games. */
    ghost predicate Valid()
      reads this
    {
      0 <= gamesWon <= gamesPlayed
    }

    /** A new account with the schema's defaults. */
    constructor (id: Id)
      ensures Valid()
      ensures this.id == id && score == 0 && highestLevel == 1 && gamesPlayed == 0 && gamesWon == 0
      ensures achievements == [] && fastestSolve == None && longestCombo == 0
      ensures totalScore == 0 && currentStreak == 0 && challengesCompleted == 0 && perfectGames == 0
      ensures friends == [] && points == 0 && powerups == [] && badges == []
    {
      this.id := id;
      score, highestLevel, gamesPlayed, gamesWon := 0, 1, 0, 0;
      achievements, fastestSolve, longestCombo := [], None, 0;
      totalScore, currentStreak, challengesCompleted, perfectGames := 0, 0, 0, 0;
      friends, points, powerups, badges := [], 0, [], [];
    }

    /** `checkAchievements`: appends the new built-in awards to
        `achievements` and returns them. */
    method CheckAchievements() returns (newAchievements: seq<Award>)
      modifies this`achievements
      ensures newAchievements == NewAwards(gamesWon, highestLevel, score, fastestSolve, old(achievements))
      ensures achievements == old(achievements) + newAchievements
    {
      ghost var held := achievements;
      newAchievements := [];
      if gamesWon == 1 && FirstWin !in achievements {
        newAchievements := newAchievements + [FirstWin];
      }
      assert newAchievements == Add([], FirstWin, gamesWon == 1, held);
      if highestLevel >= 5 && Level5 !in achievements {
        newAchievements := newAchievements + [Level5];
      }
      if highestLevel >= 10 && Level10 !in achievements {
        newAchievements := newAchievements + [Level10];
      }
      assert newAchievements == Add(Add(Add([], FirstWin, gamesWon == 1, held),
                                        Level5, highestLevel >= 5, held), Level10, highestLevel >= 10, held);
      if score >= 1000 && Score1000 !in achievements {
        newAchievements := newAchievements + [Score1000];
      }
      if score >= 5000 && Score5000 !in achievements {
        newAchievements := newAchievements + [Score5000];
      }
      if Truthy(fastestSolve) && fastestSolve.value < 60 && SpeedDemon !in achievements {
        newAchievements := newAchievements + [SpeedDemon];
      }
      achievements := achievements + newAchievements;
    }

    /** What `updateStats(r)` leaves, relative to the record before the call:
        one more game played, one more won on a win, the game's score added,
        the highest level and longest combo raised to the game's when larger,
        the fastest solve updated on a win, the new built-in awards appended;
        every other field as it was. */
    twostate predicate StatsUpdated(r: GameResult)
      reads this
    {
      && gamesPlayed == old(gamesPlayed) + 1
      && gamesWon == old(gamesWon) + (if r.won then 1 else 0)
      && score == old(score) + r.score
      && highestLevel == Max(old(highestLevel), r.level)
      && fastestSolve == NextFastest(old(fastestSolve), r.won, r.timeSpent)
      && longestCombo == Max(old(longestCombo), r.combo)
      && achievements == old(achievements) + NewAwards(gamesWon, highestLevel, score, fastestSolve, old(achievements))
      && id == old(id) && totalScore == old(totalScore) && currentStreak == old(currentStreak)
      && challengesCompleted == old(challengesCompleted) && perfectGames == old(perfectGames)
      && friends == old(friends) && points == old(points) && powerups == old(powerups) && badges == old(badges)
    }

    /** `updateStats(gameResult)`, then `checkAchievements`. The counters
        stay consistent. */
    method UpdateStats(r: GameResult)
      modifies this
      ensures StatsUpdated(r)
      ensures old(Valid()) ==> Valid()
    {
      gamesPlayed := gamesPlayed + 1;
      if r.won {
        gamesWon := gamesWon + 1;
      }
      score := score + r.score;
      highestLevel := Max(highestLevel, r.level);
      if r.won && (!Truthy(fastestSolve) || r.timeSpent < fastestSolve.value) {
        fastestSolve := Some(r.timeSpent);
      }
      longestCombo := Max(longestCombo, r.combo);
      var _ := CheckAchievements();
    }
  }
}
