/** The configurable achievement rules of server/src/models/Achievement.js:
    `checkAchievement` (one rule against a statistics snapshot),
    `checkAchievements` (the whole catalogue, in order) and `grantReward`
    (record the achievement on the user and hand out its one reward). The
    user lookup `User.findById` is passed in: as the user's held list, None
    for a missing user, or as a possibly null `User`. */
module AchievementModel {
  import opened Types
  import opened UserModel

  /** `requirement.type`: the schema's seven kinds, or a value outside them. */
  datatype RequirementKind =
    | RequireScore | RequireGames | RequireWins | RequireStreak
    | RequireChallenges | RequirePerfect | RequireSocial
    | RequireOther

  /** `reward.type`: the schema's three kinds, or a value outside them. */
  datatype RewardKind = Points | Powerup | Badge | OtherReward

  datatype Requirement = Requirement(kind: RequirementKind, value: int)

  datatype Reward = Reward(kind: RewardKind, value: int)

  /** One catalogue document. */
  datatype Achievement = Achievement(id: Id, requirement: Requirement, reward: Reward)

  /** The statistics the rules read. */
  datatype Stats = Stats(totalScore: int, gamesPlayed: int, gamesWon: int, currentStreak: int,
                         challengesCompleted: int, perfectGames: int, friendsCount: int)

  /** Every statistic of `s` is at most the same statistic of `t`. */
  predicate AtMost(s: Stats, t: Stats)
  {
    && s.totalScore <= t.totalScore && s.gamesPlayed <= t.gamesPlayed && s.gamesWon <= t.gamesWon
    && s.currentStreak <= t.currentStreak && s.challengesCompleted <= t.challengesCompleted
    && s.perfectGames <= t.perfectGames && s.friendsCount <= t.friendsCount
  }

  /** `checkAchievement(user, a, stats)`, with `held` the user's list as
      `findById` returns it (None: no such user): false for a missing user
      or an achievement already held; otherwise the statistic the
      requirement names compared with `>=` to its value; false for a kind
      outside the seven. */
  function CheckAchievement(held: Option<seq<Award>>, a: Achievement, stats: Stats): (earned: bool)
    ensures held.None? ==> !earned
    ensures held.Some? && AchievementId(a.id) in held.value ==> !earned
    ensures earned ==> !a.requirement.kind.RequireOther?
  {
    if held.None? then false
    else if AchievementId(a.id) in held.value then false
    else
      var v := a.requirement.value;
      match a.requirement.kind
      case RequireScore => stats.totalScore >= v
      case RequireGames => stats.gamesPlayed >= v
      case RequireWins => stats.gamesWon >= v
      case RequireStreak => stats.currentStreak >= v
      case RequireChallenges => stats.challengesCompleted >= v
      case RequirePerfect => stats.perfectGames >= v
      case RequireSocial => stats.friendsCount >= v
      case RequireOther => false
  }

  /** Raising statistics never takes an earned achievement away while the
      held list stays the same. */
  lemma CheckMonotone(held: Option<seq<Award>>, a: Achievement, s: Stats, t: Stats)
    requires AtMost(s, t)
    ensures CheckAchievement(held, a, s) ==> CheckAchievement(held, a, t)
  {
  }

  /** A longer held list never makes an achievement earned that was not. */
  lemma CheckHeldMonotone(held: seq<Award>, more: seq<Award>, a: Achievement, stats: Stats)
    ensures CheckAchievement(Some(held + more), a, stats) ==> CheckAchievement(Some(held), a, stats)
  {
  }

  /** `checkAchievements`: the catalogue entries `checkAchievement`
      approves, in catalogue order. */
  function Earned(catalogue: seq<Achievement>, held: Option<seq<Award>>, stats: Stats): (r: seq<Achievement>)
    ensures |r| <= |catalogue|
    ensures forall a :: a in r <==> a in catalogue && CheckAchievement(held, a, stats)
  {
    if catalogue == [] then []
    else
      var a := catalogue[|catalogue| - 1];
      Earned(catalogue[..|catalogue| - 1], held, stats) + (if CheckAchievement(held, a, stats) then [a] else [])
  }

  /** Checking one more catalogue entry appends it exactly when it is
      approved: the result keeps catalogue order and lists each approved
      entry once per occurrence. */
  lemma EarnedAppend(catalogue: seq<Achievement>, a: Achievement, held: Option<seq<Award>>, stats: Stats)
    ensures Earned(catalogue + [a], held, stats)
            == Earned(catalogue, held, stats) + (if CheckAchievement(held, a, stats) then [a] else [])
  {
    assert (catalogue + [a])[..|catalogue|] == catalogue;
  }

  /** The loop of `checkAchievements` over the catalogue; it changes nothing. */
  method CheckAchievements(catalogue: seq<Achievement>, held: Option<seq<Award>>, stats: Stats)
    returns (earnedAchievements: seq<Achievement>)
    ensures earnedAchievements == Earned(catalogue, held, stats)
  {
    earnedAchievements := [];
    for i := 0 to |catalogue|
      invariant earnedAchievements == Earned(catalogue[..i], held, stats)
    {
      assert catalogue[..i + 1][..i] == catalogue[..i];
      var hasEarned := CheckAchievement(held, catalogue[i], stats);
      if hasEarned {
        earnedAchievements := earnedAchievements + [catalogue[i]];
      }
    }
    assert catalogue[..|catalogue|] == catalogue;
  }

  /** What one `grantReward` leaves on an existing user: the achievement's
      id appended to `achievements` (held or not), and exactly one reward
      field changed by the reward kind: `points` raised by the value, one
      `{ type: value, quantity: 1 }` pushed onto `powerups`, or the value
      pushed onto `badges`; an unknown reward kind changes no reward field.
      Every other field is as it was. */
  twostate predicate Granted(user: User, a: Achievement)
    reads user
  {
    && user.achievements == old(user.achievements) + [AchievementId(a.id)]
    && user.points == old(user.points) + (if a.reward.kind == Points then a.reward.value else 0)
    && user.powerups == old(user.powerups) + (if a.reward.kind == Powerup then [PowerupGrant(a.reward.value, 1)] else [])
    && user.badges == old(user.badges) + (if a.reward.kind == Badge then [a.reward.value] else [])
    && StatsKept(user)
  }

  /** Every field of the user other than the achievement list and the three
      reward fields is as it was. */
  twostate predicate StatsKept(user: User)
    reads user
  {
    && user.id == old(user.id) && user.score == old(user.score) && user.highestLevel == old(user.highestLevel)
    && user.gamesPlayed == old(user.gamesPlayed) && user.gamesWon == old(user.gamesWon)
    && user.fastestSolve == old(user.fastestSolve) && user.longestCombo == old(user.longestCombo)
    && user.totalScore == old(user.totalScore) && user.currentStreak == old(user.currentStreak)
    && user.challengesCompleted == old(user.challengesCompleted) && user.perfectGames == old(user.perfectGames)
    && user.friends == old(user.friends)
  }

  /** `grantReward` for the user `findById` returned; a missing user (null)
      changes nothing. */
  method GrantReward(a: Achievement, user: User?)
    modifies user
    ensures user != null ==> Granted(user, a)
  {
    if user == null {
      return;
    }

    // Add achievement to user's achievements
    user.achievements := user.achievements + [AchievementId(a.id)];

    // Grant reward
    match a.reward.kind
    case Points =>
      user.points := user.points + a.reward.value;
    case Powerup =>
      user.powerups := user.powerups + [PowerupGrant(a.reward.value, 1)];
    case Badge =>
      user.badges := user.badges + [a.reward.value];
    case OtherReward =>
  }
}
