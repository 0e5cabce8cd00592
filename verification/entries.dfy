/** The canonical output records of the medal pipeline and the weighted score. */
module Entries {

  /** One country's standing, as returned to the page. */
  datatype MedalEntry = MedalEntry(
    rank: int,
    country: string,
    flagUrl: string,
    gold: int,
    silver: int,
    bronze: int,
    total: int,
    calculatedTotal: int)

  /** A snapshot: when it was fetched (or the fallback sentinel) and the ordered standings. */
  datatype MedalData = MedalData(fetchedAt: string, medals: seq<MedalEntry>)

  /** The sentinel used as `fetchedAt` of the fallback snapshot. */
  const FALLBACK_STAMP: string := "fallback"

  /** The single placeholder row of the fallback snapshot. */
  const FALLBACK_ENTRY: MedalEntry :=
    MedalEntry(1, "No data available", "", 0, 0, 0, 0, 0)

  /** The snapshot returned on every failure path. */
  const FALLBACK_DATA: MedalData := MedalData(FALLBACK_STAMP, [FALLBACK_ENTRY])

  /** The weighted score: a gold is worth 4 points, a silver 2, a bronze 1. */
  function MultiplyMedals(gold: int, silver: int, bronze: int): int
  {
    var g := gold * 4;
    var s := silver * 2;
    g + s + bronze
  }

  /** An entry whose stored score is the weighted score of its own counts. */
  predicate ScoreConsistent(e: MedalEntry)
  {
    e.calculatedTotal == 4 * e.gold + 2 * e.silver + e.bronze
  }

  /** The weighting: one more gold adds 4 points, one more silver 2, one more bronze 1,
      so a gold is worth exactly two silvers and a silver exactly two bronzes. */
  lemma ScoreWeights(gold: int, silver: int, bronze: int)
    ensures MultiplyMedals(gold + 1, silver, bronze) == MultiplyMedals(gold, silver + 2, bronze)
    ensures MultiplyMedals(gold, silver + 1, bronze) == MultiplyMedals(gold, silver, bronze + 2)
    ensures MultiplyMedals(gold, silver, bronze + 1) == MultiplyMedals(gold, silver, bronze) + 1
  {
  }
}
