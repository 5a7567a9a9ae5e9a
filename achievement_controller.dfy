/** The achievement handlers of
    server/src/controllers/achievementController.js: `checkAchievements`
    (snapshot the user's statistics, check the catalogue, grant each earned
    achievement in turn), the `hasEarned` flag, and the requirement-type to
    statistic selection of `getAchievementProgress`. */
module AchievementController {
  import opened Types
  import opened UserModel
  import opened AchievementModel

  /** The statistics object both handlers build from the user record; the
      social count is the length of `friends`. */
  function Snapshot(user: User): (s: Stats)
    reads user
    ensures s.friendsCount == |user.friends| >= 0
    ensures s.totalScore == user.totalScore && s.gamesPlayed == user.gamesPlayed && s.gamesWon == user.gamesWon
    ensures s.currentStreak == user.currentStreak && s.challengesCompleted == user.challengesCompleted
    ensures s.perfectGames == user.perfectGames
    ensures user.Valid() ==> 0 <= s.gamesWon <= s.gamesPlayed
  {
    Stats(user.totalScore, user.gamesPlayed, user.gamesWon, user.currentStreak,
          user.challengesCompleted, user.perfectGames, |user.friends|)
  }

  /** The ids an achievement list records, in order. */
  function Ids(s: seq<Achievement>): (r: seq<Award>)
    ensures |r| == |s|
    ensures forall a :: a in s ==> AchievementId(a.id) in r
  {
    if s == [] then [] else Ids(s[..|s| - 1]) + [AchievementId(s[|s| - 1].id)]
  }

  /** The points the rewards of `s` add up to. */
  function PointsOf(s: seq<Achievement>): int
  {
    if s == [] then 0
    else PointsOf(s[..|s| - 1]) + (if s[|s| - 1].reward.kind == Points then s[|s| - 1].reward.value else 0)
  }

  /** The power-up entries the rewards of `s` push, in order. */
  function PowerupsOf(s: seq<Achievement>): seq<PowerupGrant>
  {
    if s == [] then []
    else PowerupsOf(s[..|s| - 1])
         + (if s[|s| - 1].reward.kind == Powerup then [PowerupGrant(s[|s| - 1].reward.value, 1)] else [])
  }

  /** The badges the rewards of `s` push, in order. */
  function BadgesOf(s: seq<Achievement>): seq<int>
  {
    if s == [] then []
    else BadgesOf(s[..|s| - 1]) + (if s[|s| - 1].reward.kind == Badge then [s[|s| - 1].reward.value] else [])
  }

  /** `checkAchievements` for the user `findById` returned. A missing user
      makes reading its statistics fail, and nothing changes. Otherwise the
      catalogue is checked against the statistics as they were on entry, and
      every earned achievement is granted exactly once, in the order
      returned: its id appended, its reward handed out; the statistics
      themselves are left as they were. */
  method CheckAchievementsFor(user: User?, catalogue: seq<Achievement>) returns (r: Result<seq<Achievement>>)
    modifies user
    ensures user == null ==> r == Err(UserNotFound)
    ensures user != null ==>
              && r.Ok? && r.value == Earned(catalogue, Some(old(user.achievements)), old(Snapshot(user)))
              && user.achievements == old(user.achievements) + Ids(r.value)
              && user.points == old(user.points) + PointsOf(r.value)
              && user.powerups == old(user.powerups) + PowerupsOf(r.value)
              && user.badges == old(user.badges) + BadgesOf(r.value)
              && Snapshot(user) == old(Snapshot(user)) && StatsKept(user)
  {
    if user == null {
      return Err(UserNotFound);
    }

    // Get user's stats
    var stats := Snapshot(user);

    // Check for new achievements
    var earnedAchievements := CheckAchievements(catalogue, Some(user.achievements), stats);

    // Grant rewards for earned achievements
    GrantAll(user, earnedAchievements);
    r := Ok(earnedAchievements);
  }

  /** The grant loop of `checkAchievements`: `grantReward` for each earned
      achievement, in order. */
  method GrantAll(user: User, earned: seq<Achievement>)
    modifies user
    ensures user.achievements == old(user.achievements) + Ids(earned)
    ensures user.points == old(user.points) + PointsOf(earned)
    ensures user.powerups == old(user.powerups) + PowerupsOf(earned)
    ensures user.badges == old(user.badges) + BadgesOf(earned)
    ensures Snapshot(user) == old(Snapshot(user)) && StatsKept(user)
  {
    for i := 0 to |earned|
      invariant user.achievements == old(user.achievements) + Ids(earned[..i])
      invariant user.points == old(user.points) + PointsOf(earned[..i])
      invariant user.powerups == old(user.powerups) + PowerupsOf(earned[..i])
      invariant user.badges == old(user.badges) + BadgesOf(earned[..i])
      invariant Snapshot(user) == old(Snapshot(user)) && StatsKept(user)
    {
      PrefixStep(earned, i);
      GrantReward(earned[i], user);
    }
    assert earned[..|earned|] == earned;
  }

  /** Extending a prefix by one achievement extends each of its summaries by
      that achievement's part. */
  lemma PrefixStep(s: seq<Achievement>, i: nat)
    requires i < |s|
    ensures Ids(s[..i + 1]) == Ids(s[..i]) + [AchievementId(s[i].id)]
    ensures PointsOf(s[..i + 1]) == PointsOf(s[..i]) + (if s[i].reward.kind == Points then s[i].reward.value else 0)
    ensures PowerupsOf(s[..i + 1])
            == PowerupsOf(s[..i]) + (if s[i].reward.kind == Powerup then [PowerupGrant(s[i].reward.value, 1)] else [])
    ensures BadgesOf(s[..i + 1]) == BadgesOf(s[..i]) + (if s[i].reward.kind == Badge then [s[i].reward.value] else [])
  {
    assert s[..i + 1][..i] == s[..i];
  }

  /** Checking again straight after a grant, with the same statistics,
      earns nothing: every achievement the first check returned is now held. */
  lemma RecheckEmpty(catalogue: seq<Achievement>, held: seq<Award>, stats: Stats)
    ensures Earned(catalogue, Some(held + Ids(Earned(catalogue, Some(held), stats))), stats) == []
  {
    var first := Earned(catalogue, Some(held), stats);
    var again := Earned(catalogue, Some(held + Ids(first)), stats);
    if again != [] {
      var a := again[0];
      assert a in again;
      CheckHeldMonotone(held, Ids(first), a, stats);
    }
  }

  /** `hasEarned`: the achievement's id is in the user's list. */
  predicate HasEarned(held: seq<Award>, a: Achievement): (b: bool)
    ensures b ==> forall stats :: !CheckAchievement(Some(held), a, stats)
  {
    AchievementId(a.id) in held
  }

  /** The `currentValue` `getAchievementProgress` reports: the statistic the
      requirement names, 0 for a kind outside the seven. */
  function CurrentValue(kind: RequirementKind, stats: Stats): (v: int)
    ensures kind.RequireOther? ==> v == 0
    ensures kind == RequireSocial ==> v == stats.friendsCount
  {
    match kind
    case RequireScore => stats.totalScore
    case RequireGames => stats.gamesPlayed
    case RequireWins => stats.gamesWon
    case RequireStreak => stats.currentStreak
    case RequireChallenges => stats.challengesCompleted
    case RequirePerfect => stats.perfectGames
    case RequireSocial => stats.friendsCount
    case RequireOther => 0
  }

  /** The reported current value never falls when the statistics rise. */
  lemma CurrentValueMonotone(kind: RequirementKind, s: Stats, t: Stats)
    requires AtMost(s, t)
    ensures CurrentValue(kind, s) <= CurrentValue(kind, t)
  {
  }

  /** The progress report and the rule agree: an achievement already earned
      does not check again; one not yet earned checks exactly when its kind
      is one of the seven and the reported current value reaches the target.
      A kind outside the seven reports 0. */
  lemma ProgressAgrees(held: seq<Award>, a: Achievement, stats: Stats)
    ensures HasEarned(held, a) ==> !CheckAchievement(Some(held), a, stats)
    ensures !HasEarned(held, a) ==>
              (CheckAchievement(Some(held), a, stats) <==>
                 (!a.requirement.kind.RequireOther? && CurrentValue(a.requirement.kind, stats) >= a.requirement.value))
    ensures a.requirement.kind.RequireOther? ==> CurrentValue(a.requirement.kind, stats) == 0
  {
  }

  ghost predicate ProgressFacts(held: seq<Award>, a: Achievement, stats: Stats)
  {
    && (HasEarned(held, a) ==> !CheckAchievement(Some(held), a, stats))
    && (!HasEarned(held, a) ==>
          (CheckAchievement(Some(held), a, stats) <==>
             (!a.requirement.kind.RequireOther? && CurrentValue(a.requirement.kind, stats) >= a.requirement.value)))
  }

  /** One element of the `getAchievementProgress` answer (the percentage
      is not modelled). */
  datatype Progress = Progress(achievement: Id, currentValue: int, targetValue: int, hasEarned: bool)

  /** `getAchievementProgress` for an existing user: one report per
      catalogue entry, in order, each agreeing with the rule of
      `checkAchievement` on the same statistics. */
  function AchievementProgress(user: User, catalogue: seq<Achievement>): (r: seq<Progress>)
    reads user
    ensures |r| == |catalogue|
    ensures forall i :: 0 <= i < |catalogue| ==>
              && r[i].achievement == catalogue[i].id && r[i].targetValue == catalogue[i].requirement.value
              && (r[i].hasEarned <==> AchievementId(catalogue[i].id) in user.achievements)
              && (r[i].hasEarned ==> !CheckAchievement(Some(user.achievements), catalogue[i], Snapshot(user)))
              && (!r[i].hasEarned ==>
                    (CheckAchievement(Some(user.achievements), catalogue[i], Snapshot(user)) <==>
                       (!catalogue[i].requirement.kind.RequireOther? && r[i].currentValue >= r[i].targetValue)))
  {
    var stats := Snapshot(user);
    var held := user.achievements;
    var r := seq(|catalogue|, i requires 0 <= i < |catalogue| =>
                   Progress(catalogue[i].id, CurrentValue(catalogue[i].requirement.kind, stats),
                            catalogue[i].requirement.value, HasEarned(held, catalogue[i])));
    assert forall i :: 0 <= i < |catalogue| ==> r[i] == Progress(catalogue[i].id, CurrentValue(catalogue[i].requirement.kind, stats),
                                                                 catalogue[i].requirement.value, HasEarned(held, catalogue[i]));
    assert forall a :: ProgressFacts(held, a, stats) by {
      forall a { ProgressAgrees(held, a, stats); }
    }
    r
  }
}
