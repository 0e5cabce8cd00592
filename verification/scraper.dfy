/** The whole medal pipeline: pick the entry list out of the response, normalise every
    entry, sort by weighted score, assign ranks; every failure yields the fallback
    snapshot. The network, the environment and the clock are inputs: `outcome` says how
    the request ended and `now` is the timestamp a successful run stamps. */
module Scraper {
  import opened Entries
  import opened Feed
  import opened Ordering
  import opened Ranking

  /** The normalised entries of a usable response, or None on every failure path: no API
      key, a non-OK status, a thrown error, an unusable body, or a null element. */
  function LiveEntries(outcome: Outcome): (r: Option<seq<MedalEntry>>)
    ensures r.Some? ==> r.value != []
  {
    match outcome
    case Ok(body) =>
      var entries := SelectEntries(body);
      if entries.None? then None else NormalizeAll(entries.value)
    case _ => None
  }

  /** The snapshot the pipeline returns, as a pure function of its inputs. */
  function Standings(outcome: Outcome, now: string): MedalData
  {
    var live := LiveEntries(outcome);
    if live.None? then FALLBACK_DATA
    else MedalData(now, Ranked(SortByScore(live.value)))
  }

  /** `scrapeMedals`, with the early returns of the source and the in-place sort and rank
      loop on an array of entries. */
  method ScrapeMedals(outcome: Outcome, now: string) returns (d: MedalData)
    ensures d == Standings(outcome, now)
  {
    if outcome.MissingKey? || outcome.HttpNotOk? || outcome.Threw? {
      return FALLBACK_DATA;
    }
    var entries := SelectEntries(outcome.body);
    if entries.None? {
      return FALLBACK_DATA;
    }
    var normalized := NormalizeAll(entries.value);
    if normalized.None? {
      return FALLBACK_DATA;
    }
    var ms := normalized.value;
    var medals := new MedalEntry[|ms|](i requires 0 <= i < |ms| => ms[i]);
    assert medals[..] == ms;
    SortInPlace(medals);
    AssignRanks(medals);
    d := MedalData(now, medals[..]);
  }

  /** The entries of s with their rank reset to 0. */
  function Unranked(s: seq<MedalEntry>): seq<MedalEntry>
  {
    seq(|s|, i requires 0 <= i < |s| => s[i].(rank := 0))
  }

  /** Every failure path gives the fallback snapshot: stamp "fallback" and one row
      "No data available" with rank 1, an empty flag URL and all counts 0. */
  lemma FallbackOnFailure(outcome: Outcome, now: string)
    requires LiveEntries(outcome).None?
    ensures var d := Standings(outcome, now);
      && d.fetchedAt == "fallback"
      && |d.medals| == 1
      && d.medals[0] == MedalEntry(1, "No data available", "", 0, 0, 0, 0, 0)
  {
  }

  /** Which inputs fail: no key, a non-OK status and a thrown error always do; a parsed
      body fails exactly when no entry list is selected or one of its elements is null. */
  lemma FailurePaths(outcome: Outcome)
    ensures !outcome.Ok? ==> LiveEntries(outcome).None?
    ensures outcome.Ok? ==>
      (LiveEntries(outcome).None? <==>
        var entries := SelectEntries(outcome.body);
        entries.None? || exists i | 0 <= i < |entries.value| :: entries.value[i].Nullish?)
  {
  }

  /** The standings are never empty. When the clock cannot read "fallback", the stamp
      tells a fallback snapshot from a live one. */
  lemma NeverEmpty(outcome: Outcome, now: string)
    ensures |Standings(outcome, now).medals| >= 1
    ensures now != FALLBACK_STAMP ==>
      (Standings(outcome, now).fetchedAt == FALLBACK_STAMP <==> LiveEntries(outcome).None?)
  {
    var live := LiveEntries(outcome);
    if live.Some? {
      RankedFollowsRules(SortByScore(live.value));
    }
  }

  /** Ranking a list of unranked entries and resetting the ranks gives the list back. */
  lemma UnrankRanked(x: seq<MedalEntry>)
    requires forall i | 0 <= i < |x| :: x[i].rank == 0
    ensures Unranked(Ranked(x)) == x
  {
    RankedFollowsRules(x);
  }

  /** Ranking leaves every score where it was, so a sorted list stays sorted. */
  lemma RankedKeepsOrder(x: seq<MedalEntry>)
    requires SortedDesc(x)
    ensures SortedDesc(Ranked(x))
    ensures forall i | 0 <= i < |x| :: ScoreConsistent(x[i]) ==> ScoreConsistent(Ranked(x)[i])
  {
    RankedFollowsRules(x);
  }

  /** Every entry of the sorted live list comes from the normalised list, so it is
      unranked and carries its weighted score. */
  lemma SortedLiveEntries(ms: seq<MedalEntry>)
    requires forall i | 0 <= i < |ms| :: ms[i].rank == 0 && ScoreConsistent(ms[i])
    ensures forall i | 0 <= i < |SortByScore(ms)| ::
      SortByScore(ms)[i].rank == 0 && ScoreConsistent(SortByScore(ms)[i])
  {
    var sorted := SortByScore(ms);
    SortByScorePermutation(ms);
    forall i | 0 <= i < |sorted| ensures sorted[i].rank == 0 && ScoreConsistent(sorted[i]) {
      assert sorted[i] in multiset(ms);
      assert sorted[i] in ms;
    }
  }

  /** A live run returns the entry list's rows, stamped with `now`: one per raw entry,
      a permutation of the normalised entries up to rank, sorted by descending weighted
      score with ties in feed order, every score the weighted sum of its own counts, and
      ranks that follow the rank rules. */
  lemma {:induction false} LiveStandings(outcome: Outcome, now: string)
    requires outcome.Ok? && SelectEntries(outcome.body).Some?
    requires LiveEntries(outcome).Some?
    ensures var d := Standings(outcome, now);
      var ms := LiveEntries(outcome).value;
      && d.fetchedAt == now
      && |d.medals| == |SelectEntries(outcome.body).value| == |ms|
      && multiset(Unranked(d.medals)) == multiset(ms)
      && SortedDesc(d.medals)
      && SameTies(Unranked(d.medals), ms)
      && (forall i | 0 <= i < |d.medals| :: ScoreConsistent(d.medals[i]))
      && RankRules(d.medals)
  {
    var ms := LiveEntries(outcome).value;
    var sorted := SortByScore(ms);
    SortByScoreSorted(ms);
    SortByScoreStable(ms);
    SortByScorePermutation(ms);
    SortedLiveEntries(ms);
    RankedFollowsRules(sorted);
    RankedKeepsOrder(sorted);
    UnrankRanked(sorted);
  }

  /** Ranks of a live run: between 1 and the position, non-decreasing, shared by equal
      scores, and one more than the number of countries with a higher score. */
  lemma LiveRanks(outcome: Outcome, now: string, i: nat, j: nat)
    requires outcome.Ok? && SelectEntries(outcome.body).Some? && LiveEntries(outcome).Some?
    requires i <= j < |Standings(outcome, now).medals|
    ensures var s := Standings(outcome, now).medals;
      && 1 <= s[i].rank <= i + 1
      && s[i].rank <= s[j].rank
      && (s[i].calculatedTotal == s[j].calculatedTotal ==> s[i].rank == s[j].rank)
      && s[i].rank == 1 + CountAbove(s, s[i].calculatedTotal)
  {
    LiveStandings(outcome, now);
    var s := Standings(outcome, now).medals;
    RankBounds(s, i);
    RanksNonDecreasing(s, i, j);
    if s[i].calculatedTotal == s[j].calculatedTotal {
      TiesShareRank(s, i, j);
    }
    CompetitionRank(s, i);
  }

  /** The snapshot depends on nothing but the outcome and the timestamp: any stable
      descending sort followed by the rank loop gives the same rows. */
  lemma {:induction false} Deterministic(ms: seq<MedalEntry>, sorted: seq<MedalEntry>)
    requires SortedDesc(sorted) && SameTies(sorted, ms)
    ensures Ranked(sorted) == Ranked(SortByScore(ms))
  {
    SortByScoreSorted(ms);
    SortByScoreStable(ms);
    forall t ensures Tied(sorted, t) == Tied(SortByScore(ms), t) {
      assert Tied(sorted, t) == Tied(ms, t);
    }
    SortUnique(sorted, SortByScore(ms));
  }

  /** Normalising a two-element list of records gives the two normalised rows. */
  lemma NormalizeTwo(x: Item, y: Item)
    requires x.Record? && y.Record?
    ensures NormalizeAll([x, y]) == Some([Normalize(x.raw), Normalize(y.raw)])
  {
    var items := [x, y];
    assert items[1..] == [y];
    assert items[1..][1..] == [];
    var r := NormalizeAll(items);
    assert items[0].Record? && items[1].Record?;
    assert r.Some? && |r.value| == 2;
    assert r.value[0] == Normalize(x.raw) && r.value[1] == Normalize(y.raw);
    assert r.value == [Normalize(x.raw), Normalize(y.raw)];
  }

  /** Sorting two rows puts the lower score second and keeps the feed order on a tie. */
  lemma SortTwo(m0: MedalEntry, m1: MedalEntry)
    ensures SortByScore([m0, m1]) ==
      if m0.calculatedTotal >= m1.calculatedTotal then [m0, m1] else [m1, m0]
  {
    assert [m0, m1][1..] == [m1];
    assert SortByScore([m1]) == [m1];
    assert SortByScore([m0, m1]) == Insert(m0, [m1]);
  }

  /** The live snapshot of a bare two-element array: the two normalised rows, the one
      that scores less behind. */
  lemma TwoRows(x: Item, y: Item, now: string)
    requires x.Record? && y.Record?
    ensures var m0, m1 := Normalize(x.raw), Normalize(y.raw);
      Standings(Ok(JArray([x, y])), now).medals ==
        if m0.calculatedTotal >= m1.calculatedTotal then Ranked([m0, m1]) else Ranked([m1, m0])
  {
    NormalizeTwo(x, y);
    SortTwo(Normalize(x.raw), Normalize(y.raw));
    assert LiveEntries(Ok(JArray([x, y]))) == Some([Normalize(x.raw), Normalize(y.raw)]);
  }

  /** Two countries with different scores (29 and 27, say) are ranked 1 and 2, the
      higher score first, whatever order the feed listed them in; two countries on the
      same score (12 and 12, say) share rank 1 and keep the feed order. */
  lemma TwoRowRanks(x: Item, y: Item, now: string)
    requires x.Record? && y.Record?
    ensures var m0, m1 := Normalize(x.raw), Normalize(y.raw);
      var d := Standings(Ok(JArray([x, y])), now).medals;
      && |d| == 2
      && (m0.calculatedTotal != m1.calculatedTotal ==>
            d[0].calculatedTotal > d[1].calculatedTotal && d[0].rank == 1 && d[1].rank == 2)
      && (m0.calculatedTotal == m1.calculatedTotal ==>
            d == [m0.(rank := 1), m1.(rank := 1)])
  {
    TwoRows(x, y, now);
    var m0, m1 := Normalize(x.raw), Normalize(y.raw);
    assert RankOf([m0, m1], 0) == 1 && RankOf([m1, m0], 0) == 1;
    if m0.calculatedTotal != m1.calculatedTotal {
      assert RankOf([m0, m1], 1) == 2;
      assert RankOf([m1, m0], 1) == 2;
    } else {
      assert RankOf([m0, m1], 1) == 1;
    }
  }
}
