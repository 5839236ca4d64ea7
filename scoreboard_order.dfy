/**
 The client's scoreboard order: `scoreboardData.sort((a, b) => b.kills -
 a.kills || a.deaths - b.deaths)`, most kills first and, among equal kills,
 fewest deaths first.
 */
module ScoreboardOrder {
  import opened Protocol

  /** The comparator: negative when `a` goes before `b`. */
  function Compare(a: ScoreEntry, b: ScoreEntry): (r: int)
    ensures r < 0 <==> a.kills > b.kills || (a.kills == b.kills && a.deaths < b.deaths)
    ensures r == 0 <==> a.kills == b.kills && a.deaths == b.deaths
    ensures r > 0 <==> a.kills < b.kills || (a.kills == b.kills && a.deaths > b.deaths)
  {
    var byKills := b.kills - a.kills;
    if byKills != 0 then byKills else a.deaths - b.deaths
  }

  /** `a` goes strictly before `b`: the comparator returns a negative number. */
  predicate Before(a: ScoreEntry, b: ScoreEntry)
  {
    a.kills > b.kills || (a.kills == b.kills && a.deaths < b.deaths)
  }

  /** The comparator is a consistent total preorder, as `Array.prototype.sort` needs it to be. */
  lemma CompareConsistent(a: ScoreEntry, b: ScoreEntry, c: ScoreEntry)
    ensures Compare(a, b) < 0 <==> Compare(b, a) > 0
    ensures Compare(a, b) == 0 <==> a.kills == b.kills && a.deaths == b.deaths
    ensures !Before(b, a) && !Before(c, b) ==> !Before(c, a)
    ensures Before(a, b) <==> Compare(a, b) < 0
  {
  }

  /** No row goes strictly before a row above it. */
  ghost predicate Ordered(s: seq<ScoreEntry>)
  {
    forall i, j :: 0 <= i < j < |s| ==> !Before(s[j], s[i])
  }

  /**
   In an ordered scoreboard every row has at least the kills of every row
   below it, and among equal kills no more deaths.
   */
  lemma OrderedRanks(s: seq<ScoreEntry>, i: int, j: int)
    requires Ordered(s)
    requires 0 <= i < j < |s|
    ensures s[i].kills >= s[j].kills
    ensures s[i].kills == s[j].kills ==> s[i].deaths <= s[j].deaths
  {
    assert !Before(s[j], s[i]);
  }

  /**
   Sorts the rows in place: afterwards they are ordered and are the same
   rows as before.
   */
  method SortScoreboard(a: array<ScoreEntry>)
    modifies a
    ensures Ordered(a[..])
    ensures multiset(a[..]) == multiset(old(a[..]))
  {
    if a.Length == 0 {
      return;
    }
    var i := 1;
    while i < a.Length
      invariant 1 <= i <= a.Length
      invariant Ordered(a[..i])
      invariant multiset(a[..]) == multiset(old(a[..]))
    {
      var j := i;
      while j > 0 && Before(a[j], a[j - 1])
        invariant 0 <= j <= i
        invariant forall k, l :: 0 <= k < l <= i && l != j ==> !Before(a[l], a[k])
        invariant multiset(a[..]) == multiset(old(a[..]))
      {
        a[j - 1], a[j] := a[j], a[j - 1];
        j := j - 1;
      }
      forall k, l | 0 <= k < l <= i
        ensures !Before(a[l], a[k])
      {
        if l == j && k < j - 1 {
          CompareConsistent(a[k], a[j - 1], a[j]);
        }
      }
      i := i + 1;
    }
  }
}
