/** The word bank of server/src/utils/wordUtils.js: the module-level buckets
    of words keyed by length 4..8, filled by `loadWordLists`, and the
    level-to-length rule with the random pick of `getRandomWord`. */
module WordUtils {
  import opened Types

  /** Shortest and longest word lengths the bank keeps. */
  const MinLength := 4
  const MaxLength := 8

  /** The words of `words` whose length is `k`, in input order. */
  function OfLength(words: seq<string>, k: int): (r: seq<string>)
  {
    if words == [] then []
    else OfLength(words[..|words| - 1], k)
         + (if |words[|words| - 1]| == k then [words[|words| - 1]] else [])
  }

  /** A word is kept for bucket `k` exactly when it occurs in the input and
      has length `k`. */
  lemma {:induction false} OfLengthMembers(words: seq<string>, k: int, w: string)
    ensures w in OfLength(words, k) <==> w in words && |w| == k
  {
    if words != [] {
      var init := words[..|words| - 1];
      OfLengthMembers(init, k, w);
      assert words == init + [words[|words| - 1]];
    }
  }

  /** Word length for a level: up to 3 gives 4 letters, up to 6 five, up to
      9 six, up to 12 seven, and anything higher 8. */
  function LengthForLevel(level: int): (n: int)
    ensures MinLength <= n <= MaxLength
  {
    if level <= 3 then 4
    else if level <= 6 then 5
    else if level <= 9 then 6
    else if level <= 12 then 7
    else 8
  }

  /** A higher level never asks for a shorter word. */
  lemma LengthForLevelMonotone(a: int, b: int)
    requires a <= b
    ensures LengthForLevel(a) <= LengthForLevel(b)
  {
  }

  /** The bank: one bucket per length, the object `wordLists` of the source. */
  class WordBank {
    var lists: map<int, seq<string>>

    /** Buckets exist for exactly the lengths 4..8 and hold only words of
        their own length. */
    ghost predicate Valid()
      reads this
    {
      && (forall k :: k in lists <==> MinLength <= k <= MaxLength)
      && (forall k, i :: k in lists && 0 <= i < |lists[k]| ==> |lists[k][i]| == k)
    }

    /** The five empty buckets the module starts with. */
    constructor ()
      ensures Valid()
      ensures forall k :: MinLength <= k <= MaxLength ==> lists[k] == []
    {
      lists := map[4 := [], 5 := [], 6 := [], 7 := [], 8 := []];
    }

    /** `loadWordLists` once the file has been read and parsed: every word of
        length 4..8 is appended to its bucket, in input order; other words
        are dropped and earlier bucket contents are kept. */
    method Load(words: seq<string>)
      requires Valid()
      modifies this
      ensures Valid()
      ensures forall k :: k in lists ==> lists[k] == old(lists[k]) + OfLength(words, k)
    {
      for i := 0 to |words|
        invariant Valid()
        invariant forall k :: k in lists ==> lists[k] == old(lists[k]) + OfLength(words[..i], k)
      {
        var w := words[i];
        assert words[..i + 1][..i] == words[..i];
        if MinLength <= |w| <= MaxLength {
          lists := lists[|w| := lists[|w|] + [w]];
        }
      }
      assert words[..|words|] == words;
    }

    /** `getRandomWord(level)` with Math.random() passed in as `rnd`: the
        word at a random index of the bucket for the level's length, or the
        error "No words available for this level" when that bucket is empty. */
    function RandomWord(level: int, rnd: real): (r: Result<string>)
      reads this
      requires 0.0 <= rnd < 1.0
      ensures r.Err? <==> LengthForLevel(level) !in lists || lists[LengthForLevel(level)] == []
      ensures r.Err? ==> r.error == NoWordsAvailable
      ensures r.Ok? ==> r.value in lists[LengthForLevel(level)]
      ensures r.Ok? && Valid() ==> |r.value| == LengthForLevel(level)
    {
      var k := LengthForLevel(level);
      if k !in lists || |lists[k]| == 0 then Err(NoWordsAvailable)
      else Ok(lists[k][RandomIndex(rnd, |lists[k]|)])
    }
  }
}
