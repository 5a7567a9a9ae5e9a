/** The daily challenge document of server/src/models/Challenge.js: the
    challenge score, the append-only attempt log, the best-score-per-user
    leaderboard (stable sort by descending score, cut to 100 entries), and
    the find-or-create of the day's challenge over a store keyed by day. */
module ChallengeModel {
  import opened Types
  import opened WordUtils

  /** The leaderboard keeps at most this many entries. */
  const MaxEntries := 100

  /** The difficulty, and the level asked of the word bank, of a new challenge. */
  const ChallengeLevel := 3

  /** One entry of `attempts`. */
  datatype Attempt = Attempt(user: Id, guess: string, result: seq<Verdict>, time: int, score: int)

  /** One entry of `leaderboard`; `attempts` is whatever count the caller passed. */
  datatype Entry = Entry(user: Id, score: int, time: int, attempts: int)

  // ---------------------------------------------------------------------
  // Scoring
  // ---------------------------------------------------------------------

  /** `calculateScore(result, time)`: a base of 1000, ten points per second
      under 60, a hundred per `correct` verdict. */
  function ChallengeScore(result: seq<Verdict>, time: int): (s: int)
    ensures s >= 1000 + 100 * CountCorrect(result)
    ensures time >= 0 ==> s <= 1600 + 100 * CountCorrect(result)
    ensures time >= 60 ==> s == 1000 + 100 * CountCorrect(result)
  {
    1000 + (if 60 - time > 0 then 60 - time else 0) * 10 + CountCorrect(result) * 100
  }

  /** Taking longer never raises the score. */
  lemma ChallengeScoreTime(result: seq<Verdict>, t1: int, t2: int)
    requires t1 <= t2
    ensures ChallengeScore(result, t2) <= ChallengeScore(result, t1)
  {
  }

  /** At the same time, a verdict with more `correct` marks scores more, by
      100 per mark. */
  lemma ChallengeScoreAccuracy(r1: seq<Verdict>, r2: seq<Verdict>, time: int)
    ensures ChallengeScore(r2, time) - ChallengeScore(r1, time) == 100 * (CountCorrect(r2) - CountCorrect(r1))
  {
  }

  // ---------------------------------------------------------------------
  // The leaderboard, as functions on values
  // ---------------------------------------------------------------------

  /** `leaderboard.find(entry => entry.user == u)`: the index of the user's
      first entry, or -1. */
  function FindEntry(lb: seq<Entry>, u: Id): (k: int)
    ensures -1 <= k < |lb|
    ensures k >= 0 ==> lb[k].user == u && forall j :: 0 <= j < k ==> lb[j].user != u
    ensures k == -1 ==> forall j :: 0 <= j < |lb| ==> lb[j].user != u
  {
    if lb == [] then -1
    else if lb[0].user == u then 0
    else
      var k := FindEntry(lb[1..], u);
      if k == -1 then -1 else k + 1
  }

  /** The first step of `updateLeaderboard`: a user without an entry gets one
      appended; an existing entry takes the new score, time and count only
      when the new score is strictly greater. */
  function Upsert(lb: seq<Entry>, u: Id, score: int, time: int, count: int): seq<Entry>
  {
    var k := FindEntry(lb, u);
    if k == -1 then lb + [Entry(u, score, time, count)]
    else if score > lb[k].score then lb[k := Entry(lb[k].user, score, time, count)]
    else lb
  }

  /** `sort((a, b) => b.score - a.score)` on one element: `e` goes before the
      first entry scoring no more than it. */
  function Insert(e: Entry, t: seq<Entry>): seq<Entry>
  {
    if t == [] || t[0].score <= e.score then [e] + t
    else [t[0]] + Insert(e, t[1..])
  }

  /** The library's stable sort by descending score, as insertion sort. */
  function SortByScore(s: seq<Entry>): seq<Entry>
  {
    if s == [] then [] else Insert(s[0], SortByScore(s[1..]))
  }

  /** `slice(0, n)`. */
  function Top(s: seq<Entry>, n: nat): seq<Entry>
  {
    if |s| <= n then s else s[..n]
  }

  /** The leaderboard `updateLeaderboard` leaves. */
  function UpdatedBoard(lb: seq<Entry>, u: Id, score: int, time: int, count: int): seq<Entry>
  {
    Top(SortByScore(Upsert(lb, u, score, time, count)), MaxEntries)
  }

  /** Scores never increase along the board. */
  predicate Sorted(s: seq<Entry>)
  {
    forall i, j :: 0 <= i < j < |s| ==> s[i].score >= s[j].score
  }

  /** How many entries belong to user `u`. */
  function UserCount(s: seq<Entry>, u: Id): nat
  {
    if s == [] then 0 else (if s[0].user == u then 1 else 0) + UserCount(s[1..], u)
  }

  /** At most one entry per user. */
  ghost predicate OnePerUser(s: seq<Entry>)
  {
    forall u :: UserCount(s, u) <= 1
  }

  /** The entries scoring exactly `v`, in board order. */
  function WithScore(s: seq<Entry>, v: int): seq<Entry>
  {
    if s == [] then [] else (if s[0].score == v then [s[0]] else []) + WithScore(s[1..], v)
  }

  // ---------------------------------------------------------------------
  // Lemmas about the sort
  // ---------------------------------------------------------------------

  lemma {:induction false} InsertMultiset(e: Entry, t: seq<Entry>)
    ensures |Insert(e, t)| == |t| + 1
    ensures multiset(Insert(e, t)) == multiset(t) + multiset{e}
  {
    if t != [] && t[0].score > e.score {
      InsertMultiset(e, t[1..]);
      assert t == [t[0]] + t[1..];
    }
  }

  lemma {:induction false} InsertSorted(e: Entry, t: seq<Entry>)
    requires Sorted(t)
    ensures |Insert(e, t)| == |t| + 1
    ensures Insert(e, t)[0] == e || Insert(e, t)[0] == t[0]
    ensures Sorted(Insert(e, t))
  {
    if t != [] && t[0].score > e.score {
      var rest := Insert(e, t[1..]);
      assert Sorted(t[1..]);
      InsertSorted(e, t[1..]);
      assert rest[0].score <= t[0].score;
      assert forall j :: 0 <= j < |rest| ==> rest[j].score <= rest[0].score;
      assert Insert(e, t) == [t[0]] + rest;
    }
  }

  /** The sort gives a board in non-increasing score order holding exactly
      the same entries. */
  lemma {:induction false} SortFacts(s: seq<Entry>)
    ensures Sorted(SortByScore(s))
    ensures multiset(SortByScore(s)) == multiset(s)
    ensures |SortByScore(s)| == |s|
  {
    if s != [] {
      SortFacts(s[1..]);
      InsertMultiset(s[0], SortByScore(s[1..]));
      InsertSorted(s[0], SortByScore(s[1..]));
      assert s == [s[0]] + s[1..];
    }
  }

  lemma {:induction false} InsertStable(e: Entry, t: seq<Entry>, v: int)
    ensures WithScore(Insert(e, t), v) == (if e.score == v then [e] else []) + WithScore(t, v)
  {
    if t == [] || t[0].score <= e.score {
      assert Insert(e, t)[1..] == t;
    } else {
      InsertStable(e, t[1..], v);
      assert Insert(e, t)[1..] == Insert(e, t[1..]);
    }
  }

  /** The sort is stable: entries with equal scores keep their order. */
  lemma {:induction false} SortStable(s: seq<Entry>, v: int)
    ensures WithScore(SortByScore(s), v) == WithScore(s, v)
  {
    if s != [] {
      SortStable(s[1..], v);
      InsertStable(s[0], SortByScore(s[1..]), v);
    }
  }

  lemma {:induction false} InsertUsers(e: Entry, t: seq<Entry>, u: Id)
    ensures UserCount(Insert(e, t), u) == UserCount(t, u) + (if e.user == u then 1 else 0)
  {
    if t == [] || t[0].score <= e.score {
      assert Insert(e, t)[1..] == t;
    } else {
      InsertUsers(e, t[1..], u);
      assert Insert(e, t)[1..] == Insert(e, t[1..]);
    }
  }

  lemma {:induction false} SortUsers(s: seq<Entry>, u: Id)
    ensures UserCount(SortByScore(s), u) == UserCount(s, u)
  {
    if s != [] {
      SortUsers(s[1..], u);
      InsertUsers(s[0], SortByScore(s[1..]), u);
    }
  }

  /** Sorting a board that is already in order changes nothing. */
  lemma {:induction false} SortSorted(s: seq<Entry>)
    requires Sorted(s)
    ensures SortByScore(s) == s
  {
    if s != [] {
      assert Sorted(s[1..]);
      SortSorted(s[1..]);
      assert s == [s[0]] + s[1..];
    }
  }

  // ---------------------------------------------------------------------
  // Lemmas about the user counts
  // ---------------------------------------------------------------------

  lemma {:induction false} FindCount(s: seq<Entry>, u: Id)
    ensures FindEntry(s, u) == -1 <==> UserCount(s, u) == 0
  {
    if s != [] {
      FindCount(s[1..], u);
    }
  }

  lemma {:induction false} AppendCount(s: seq<Entry>, e: Entry, u: Id)
    ensures UserCount(s + [e], u) == UserCount(s, u) + (if e.user == u then 1 else 0)
  {
    if s != [] {
      AppendCount(s[1..], e, u);
      assert (s + [e])[1..] == s[1..] + [e];
    }
  }

  lemma {:induction false} UpdateCount(s: seq<Entry>, k: nat, e: Entry, u: Id)
    requires k < |s| && e.user == s[k].user
    ensures UserCount(s[k := e], u) == UserCount(s, u)
  {
    if k > 0 {
      UpdateCount(s[1..], k - 1, e, u);
      assert s[k := e][1..] == s[1..][k - 1 := e];
    }
  }

  lemma {:induction false} PrefixCount(s: seq<Entry>, n: nat, u: Id)
    requires n <= |s|
    ensures UserCount(s[..n], u) <= UserCount(s, u)
  {
    if n > 0 {
      PrefixCount(s[1..], n - 1, u);
      assert s[..n][1..] == s[1..][..n - 1];
    }
  }

  // ---------------------------------------------------------------------
  // What `updateLeaderboard` promises
  // ---------------------------------------------------------------------

  /** The user's entry holds the better of the old and the new score; every
      other entry is untouched; a new user adds exactly one entry. */
  lemma UpsertBest(lb: seq<Entry>, u: Id, score: int, time: int, count: int)
    ensures var r := Upsert(lb, u, score, time, count);
            var k := FindEntry(r, u);
            && |r| == |lb| + (if FindEntry(lb, u) == -1 then 1 else 0)
            && (forall j :: 0 <= j < |lb| && lb[j].user != u ==> r[j] == lb[j])
            && k >= 0 && r[k].score >= score
            && (FindEntry(lb, u) >= 0 ==> k == FindEntry(lb, u) && r[k].score >= lb[k].score)
            && (r[k] == Entry(u, score, time, count) || r[k] == lb[k])
  {
    var r := Upsert(lb, u, score, time, count);
    var k0 := FindEntry(lb, u);
    if k0 == -1 {
      assert r[|lb|] == Entry(u, score, time, count);
      assert FindEntry(r, u) == |lb|;
    } else {
      assert r[k0].user == u;
      assert forall j :: 0 <= j < k0 ==> r[j] == lb[j];
    }
  }

  /** A score that does not beat the user's entry leaves a board that is in
      order and within the cap exactly as it was. */
  lemma NoOverwrite(lb: seq<Entry>, u: Id, score: int, time: int, count: int)
    requires Sorted(lb) && |lb| <= MaxEntries
    requires FindEntry(lb, u) >= 0 && score <= lb[FindEntry(lb, u)].score
    ensures UpdatedBoard(lb, u, score, time, count) == lb
  {
    SortSorted(lb);
  }

  /** After an update the board is in non-increasing score order, holds the
      first 100 entries of the sorted board (all of them when there are no
      more), all of them entries of the upserted board, and keeps
      equal scores in their prior order. */
  lemma {:induction false} BoardShape(lb: seq<Entry>, u: Id, score: int, time: int, count: int)
    ensures var b := UpdatedBoard(lb, u, score, time, count);
            var s := SortByScore(Upsert(lb, u, score, time, count));
            && Sorted(b) && |b| == (if |s| <= MaxEntries then |s| else MaxEntries)
            && multiset(b) <= multiset(Upsert(lb, u, score, time, count))
            && b == s[..|b|]
  {
    var up := Upsert(lb, u, score, time, count);
    var s := SortByScore(up);
    SortFacts(up);
    if |s| > MaxEntries {
      assert s == s[..MaxEntries] + s[MaxEntries..];
      assert multiset(s[..MaxEntries]) <= multiset(s);
    }
  }

  /** A board with one entry per user keeps that property. */
  lemma OnePerUserKept(lb: seq<Entry>, u: Id, score: int, time: int, count: int)
    requires OnePerUser(lb)
    ensures OnePerUser(UpdatedBoard(lb, u, score, time, count))
  {
    var up := Upsert(lb, u, score, time, count);
    var s := SortByScore(up);
    var k := FindEntry(lb, u);
    forall v: Id ensures UserCount(UpdatedBoard(lb, u, score, time, count), v) <= 1 {
      if k == -1 {
        FindCount(lb, u);
        AppendCount(lb, Entry(u, score, time, count), v);
      } else if score > lb[k].score {
        UpdateCount(lb, k, Entry(lb[k].user, score, time, count), v);
      }
      assert UserCount(up, v) <= 1;
      SortUsers(up, v);
      if |s| > MaxEntries {
        PrefixCount(s, MaxEntries, v);
      }
    }
  }

  // ---------------------------------------------------------------------
  // The challenge document
  // ---------------------------------------------------------------------

  class Challenge {
    /** The day key: local midnight in milliseconds. */
    var date: int
    var word: string
    var difficulty: int
    var attempts: seq<Attempt>
    var leaderboard: seq<Entry>

    /** The leaderboard is in order, within the cap, one entry per user. */
    ghost predicate Valid()
      reads this
    {
      Sorted(leaderboard) && |leaderboard| <= MaxEntries && OnePerUser(leaderboard)
    }

    /** `create({ date, word, difficulty })` with empty lists. */
    constructor (date: int, word: string, difficulty: int)
      ensures Valid()
      ensures this.date == date && this.word == word && this.difficulty == difficulty
      ensures attempts == [] && leaderboard == []
    {
      this.date := date;
      this.word := word;
      this.difficulty := difficulty;
      attempts := [];
      leaderboard := [];
    }

    /** `addAttempt(u, guess, result, time)`: appends one attempt carrying
        its score, then updates the leaderboard with that score and the
        length of the whole attempt log. */
    method AddAttempt(u: Id, guess: string, result: seq<Verdict>, time: int)
      requires Valid()
      modifies this`attempts, this`leaderboard
      ensures Valid()
      ensures attempts == old(attempts) + [Attempt(u, guess, result, time, ChallengeScore(result, time))]
      ensures leaderboard == UpdatedBoard(old(leaderboard), u, ChallengeScore(result, time), time, |attempts|)
    {
      var score := ChallengeScore(result, time);
      attempts := attempts + [Attempt(u, guess, result, time, score)];
      UpdateLeaderboard(u, score, time, |attempts|);
    }

    /** `updateLeaderboard(u, score, time, count)`: upsert, sort, cut. */
    method UpdateLeaderboard(u: Id, score: int, time: int, count: int)
      requires Valid()
      modifies this`leaderboard
      ensures Valid()
      ensures leaderboard == UpdatedBoard(old(leaderboard), u, score, time, count)
    {
      ghost var before := leaderboard;
      var k := FindEntry(leaderboard, u);
      if k != -1 {
        if score > leaderboard[k].score {
          leaderboard := leaderboard[k := Entry(leaderboard[k].user, score, time, count)];
        }
      } else {
        leaderboard := leaderboard + [Entry(u, score, time, count)];
      }
      leaderboard := SortByScore(leaderboard);
      if |leaderboard| > MaxEntries {
        leaderboard := leaderboard[..MaxEntries];
      }
      BoardShape(before, u, score, time, count);
      OnePerUserKept(before, u, score, time, count);
    }
  }

  /** The challenge collection, one document per day key. */
  class ChallengeStore {
    var byDay: map<int, Challenge>

    /** Each stored challenge sits under its own day, so no two days share
        a document, and each keeps its own leaderboard valid. */
    ghost predicate Valid()
      reads this, byDay.Values
    {
      forall d :: d in byDay ==> byDay[d].date == d && byDay[d].Valid()
    }

    constructor ()
      ensures Valid() && byDay == map[]
    {
      byDay := map[];
    }

    /** `getTodayChallenge` for day key `today`: the stored challenge when
        there is one, and nothing else changes; otherwise a new challenge of
        difficulty 3 with a word drawn for level 3, stored under the day,
        or the bank's failure with nothing stored. */
    method GetTodayChallenge(today: int, bank: WordBank, rnd: real) returns (r: Result<Challenge>)
      requires 0.0 <= rnd < 1.0
      requires Valid()
      modifies this`byDay
      ensures Valid()
      ensures today in old(byDay) ==> r == Ok(old(byDay)[today]) && byDay == old(byDay)
      ensures today !in old(byDay) && bank.RandomWord(ChallengeLevel, rnd).Err? ==>
                r == Err(NoWordsAvailable) && byDay == old(byDay)
      ensures today !in old(byDay) && bank.RandomWord(ChallengeLevel, rnd).Ok? ==>
                && r.Ok? && fresh(r.value) && r.value.Valid()
                && r.value.date == today && r.value.difficulty == ChallengeLevel
                && r.value.word == bank.RandomWord(ChallengeLevel, rnd).value
                && r.value.attempts == [] && r.value.leaderboard == []
                && byDay == old(byDay)[today := r.value]
    {
      if today in byDay {
        return Ok(byDay[today]);
      }
      var word := bank.RandomWord(ChallengeLevel, rnd);
      if word.Err? {
        return Err(word.error);
      }
      var c := new Challenge(today, word.value, ChallengeLevel);
      byDay := byDay[today := c];
      r := Ok(c);
    }
  }
}
