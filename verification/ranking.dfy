/** Competition ranking ("1224" style) of the sorted standings: the first entry is
    ranked 1, an entry tied with its predecessor shares its rank, and any other entry is
    ranked by its 1-based position. */
module Ranking {
  import opened Entries
  import opened Ordering

  /** The rank the loop gives the entry at index i of s. */
  function RankOf(s: seq<MedalEntry>, i: nat): (r: int)
    requires i < |s|
    ensures 1 <= r <= i + 1
    decreases i
  {
    if i == 0 then 1
    else if s[i].calculatedTotal == s[i - 1].calculatedTotal then RankOf(s, i - 1)
    else i + 1
  }

  /** s with every entry's rank replaced by the one the loop gives it. */
  function Ranked(s: seq<MedalEntry>): seq<MedalEntry>
  {
    seq(|s|, i requires 0 <= i < |s| => s[i].(rank := RankOf(s, i)))
  }

  /** The three rules of the rank loop, stated on the ranks a list carries. */
  predicate RankRules(s: seq<MedalEntry>)
  {
    && (|s| > 0 ==> s[0].rank == 1)
    && forall i | 0 < i < |s| ::
         s[i].rank == if s[i].calculatedTotal == s[i - 1].calculatedTotal then s[i - 1].rank else i + 1
  }

  /** Ranked keeps length, order and every field but rank, and its ranks obey the rules. */
  lemma RankedFollowsRules(s: seq<MedalEntry>)
    ensures |Ranked(s)| == |s|
    ensures forall i | 0 <= i < |s| :: Ranked(s)[i] == s[i].(rank := Ranked(s)[i].rank)
    ensures RankRules(Ranked(s))
  {
  }

  /** Every rank lies between 1 and the entry's 1-based position. */
  lemma {:induction false} RankBounds(s: seq<MedalEntry>, i: nat)
    requires RankRules(s) && i < |s|
    ensures 1 <= s[i].rank <= i + 1
  {
    if i > 0 {
      RankBounds(s, i - 1);
    }
  }

  /** Ranks never decrease along the list. */
  lemma {:induction false} RanksNonDecreasing(s: seq<MedalEntry>, i: nat, j: nat)
    requires RankRules(s) && i <= j < |s|
    ensures s[i].rank <= s[j].rank
  {
    if i < j {
      RanksNonDecreasing(s, i, j - 1);
      RankBounds(s, j - 1);
    }
  }

  /** In a sorted list, entries with equal scores have equal ranks. */
  lemma {:induction false} TiesShareRank(s: seq<MedalEntry>, i: nat, j: nat)
    requires RankRules(s) && SortedDesc(s)
    requires i < |s| && j < |s| && s[i].calculatedTotal == s[j].calculatedTotal
    ensures s[i].rank == s[j].rank
  {
    if i < j {
      assert s[j - 1].calculatedTotal == s[j].calculatedTotal;
      TiesShareRank(s, i, j - 1);
    } else if j < i {
      assert s[i - 1].calculatedTotal == s[i].calculatedTotal;
      TiesShareRank(s, i - 1, j);
    }
  }

  /** How many entries of s score strictly more than v. */
  function CountAbove(s: seq<MedalEntry>, v: int): (n: nat)
    ensures n <= |s|
  {
    if s == [] then 0
    else (if s[0].calculatedTotal > v then 1 else 0) + CountAbove(s[1..], v)
  }

  /** When exactly the first k entries score more than v, k entries are above v. */
  lemma {:induction false} CountAboveSplit(s: seq<MedalEntry>, k: nat, v: int)
    requires k <= |s|
    requires forall j | 0 <= j < k :: s[j].calculatedTotal > v
    requires forall j | k <= j < |s| :: s[j].calculatedTotal <= v
    ensures CountAbove(s, v) == k
  {
    if s != [] {
      CountAboveSplit(s[1..], if k == 0 then 0 else k - 1, v);
    }
  }

  /** In a sorted list the rank is one more than the number of entries with a strictly
      higher score: the standard competition ranking, which depends on the scores alone
      and not on how ties were ordered. */
  lemma {:induction false} CompetitionRank(s: seq<MedalEntry>, i: nat)
    requires RankRules(s) && SortedDesc(s) && i < |s|
    ensures s[i].rank == 1 + CountAbove(s, s[i].calculatedTotal)
  {
    if i == 0 {
      CountAboveSplit(s, 0, s[0].calculatedTotal);
    } else if s[i].calculatedTotal == s[i - 1].calculatedTotal {
      CompetitionRank(s, i - 1);
    } else {
      CountAboveSplit(s, i, s[i].calculatedTotal);
    }
  }

  /** An entry is ranked first exactly when it has the leader's score. */
  lemma RankOneIffLeaderScore(s: seq<MedalEntry>, i: nat)
    requires RankRules(s) && SortedDesc(s) && i < |s|
    ensures s[i].rank == 1 <==> s[i].calculatedTotal == s[0].calculatedTotal
  {
    CompetitionRank(s, i);
    if s[i].calculatedTotal != s[0].calculatedTotal {
      assert s[0].calculatedTotal > s[i].calculatedTotal;
      assert CountAbove(s, s[i].calculatedTotal) >= 1;
    } else {
      CountAboveSplit(s, 0, s[i].calculatedTotal);
    }
  }

  /** The `forEach` that writes each entry's rank, reading the rank just written for its
      predecessor. Only the ranks change. */
  method AssignRanks(a: array<MedalEntry>)
    modifies a
    ensures a[..] == Ranked(old(a[..]))
  {
    var index := 0;
    while index < a.Length
      invariant 0 <= index <= a.Length
      invariant forall k | 0 <= k < index :: a[k] == old(a[k]).(rank := RankOf(old(a[..]), k))
      invariant forall k | index <= k < a.Length :: a[k] == old(a[k])
    {
      if index == 0 {
        a[index] := a[index].(rank := 1);
      } else {
        var prev := a[index - 1];
        a[index] := a[index].(rank :=
          if a[index].calculatedTotal == prev.calculatedTotal then prev.rank else index + 1);
      }
      index := index + 1;
    }
  }
}
