# Olympic medal standings pipeline, in Dafny

This project models `scrapeMedals` of `lib/scraper.ts`, the medal-standings engine of a
site that shows Olympic medal counts per country. One call does five things:

1. It takes the entry list out of the API response. The response is either a bare array
   or an object holding the array under `results`, `medals`, `data` or `countries`.
2. It normalises each raw entry onto a canonical `MedalEntry`. Each field takes the first
   alias that is not null or undefined, with defaults.
3. It scores each entry with the weighted score `4*gold + 2*silver + bronze`.
4. It sorts the entries in place by descending score.
5. It assigns competition ranks ("1224" style) in a loop.

Every failure gives one fixed fallback snapshot: no API key, a non-OK HTTP status, a
thrown error, or an empty or unrecognised response.

Layout, one module per component of the source file:

- `entries.dfy` (module `Entries`): `MedalEntry`, `MedalData`, the fallback snapshot
  `FALLBACK_DATA` and `MultiplyMedals`.
- `feed.dfy` (module `Feed`): the response as a small JSON datatype, raw entries as
  records of `Option` fields, and the request outcome `MissingKey | HttpNotOk | Threw | Ok`.
  It also holds the `??` chain as `First` over an ordered alias list, the entry-list
  choice `SelectEntries`, and the normalisation `Normalize` / `NormalizeAll`.
- `ordering.dfy` (module `Ordering`): the in-place sort. `SortInPlace` is a stable
  insertion sort over an `array`. It is proved sorted and stable, and equal to the
  reference `SortByScore`. Stability is stated through `Tied(s, t)`, the entries of `s`
  with score `t` in order. `SortUnique` shows that sorted-and-stable determines the result.
- `ranking.dfy` (module `Ranking`): the rank loop `AssignRanks` over the same array,
  proved against `Ranked`/`RankOf`. The rules and their consequences are lemmas.
- `scraper.dfy` (module `Scraper`): the pipeline as a pure function `Standings` and the
  method `ScrapeMedals`, which follows the source's early returns and runs the two
  in-place passes. The end-to-end lemmas are here too.

The network, the environment lookup and the clock are inputs. `outcome` says how the
request ended. `now` is the timestamp a live snapshot carries.

Ranking is competition ranking: ties share a rank and the next rank skips.

## Model

| member | source | states |
|---|---|---|
| `Entries.ScoreWeights` | lib/scraper.ts:41-54 | under the weighted score, a gold is worth exactly two silvers, a silver two bronzes, and a bronze one point |
| `Feed.First` | lib/scraper.ts:112-117 | an alias chain `a ?? b ?? …` yields nothing exactly when every alias is absent; otherwise it yields one of the aliases |
| `Feed.FirstAt` | lib/scraper.ts:112-117 | the chain picks the alias at position k whenever every earlier alias is absent |
| `Feed.Defined` | lib/scraper.ts:104 | a key holding JSON null counts as absent for `??`, like a missing key |
| `Feed.NonEmpty` | lib/scraper.ts:106-109 | a list is used exactly when it is non-empty |
| `Feed.SelectEntries` | lib/scraper.ts:101-109 | a selected list is never empty; a bare array is used as it is if non-empty; a null or scalar body, or an object with none of the four keys defined, selects nothing |
| `Feed.ObjectSelection` | lib/scraper.ts:104-109 | under an object, the first defined key of results, medals, data, countries decides: its list if it is a non-empty array, otherwise nothing |
| `Feed.Normalize` | lib/scraper.ts:111-120 | a normalised entry has rank 0 and score `4*gold + 2*silver + bronze` of its own counts; with no total alias its total is gold+silver+bronze |
| `Feed.NormalizeAliases` | lib/scraper.ts:112-117 | each field is the first present alias of its ordered list (country_name, country, name, else "Unknown"; flag_url, flag, else ""; plain count, then `_medals` key, else 0; total, total_medals, else the sum) |
| `Feed.NormalizeAll` | lib/scraper.ts:111-121 | mapping succeeds exactly when no element is null or undefined, and then gives one normalised entry per element, in order |
| `Ordering.SortByScorePermutation` | lib/scraper.ts:123 | the reference sort returns a permutation of its input |
| `Ordering.SortByScoreSorted` | lib/scraper.ts:123 | the reference sort is non-increasing in score |
| `Ordering.SortByScoreStable` | lib/scraper.ts:123 | the reference sort keeps every tie class (the entries of one score) in input order |
| `Ordering.SortUnique` | lib/scraper.ts:123 | two lists that are both sorted by descending score and have the same tie classes are equal, so the stable sort's result is unique |
| `Ordering.InsertAt` | lib/scraper.ts:123 | one insertion step leaves the first i+1 entries sorted by descending score, keeps every tie class in its old order, and leaves the entries after index i untouched |
| `Ordering.SortInPlace` | lib/scraper.ts:123 | the array ends sorted by descending score, each tie class in its old order, and equal to the reference sort of its old contents |
| `Ranking.RankOf` | lib/scraper.ts:126-133 | the rank given at index i lies between 1 and i+1 |
| `Ranking.RankedFollowsRules` | lib/scraper.ts:126-133 | ranking keeps length, order and every field but rank; rank[0] = 1, a tie with the predecessor copies its rank, otherwise rank = index+1 |
| `Ranking.RankBounds` | lib/scraper.ts:126-133 | under the rank rules, 1 <= rank[i] <= i+1 |
| `Ranking.RanksNonDecreasing` | lib/scraper.ts:126-133 | under the rank rules, ranks never decrease along the list |
| `Ranking.TiesShareRank` | lib/scraper.ts:123-133 | in a sorted list under the rank rules, equal scores have equal ranks, even when they are not neighbours |
| `Ranking.CompetitionRank` | lib/scraper.ts:123-133 | in a sorted list, rank = 1 + the number of entries with a strictly higher score |
| `Ranking.RankOneIffLeaderScore` | lib/scraper.ts:126-133 | an entry is ranked 1 exactly when its score equals the leader's |
| `Ranking.AssignRanks` | lib/scraper.ts:126-133 | the loop leaves the array equal to the ranked version of its old contents, so only the ranks change |
| `Scraper.LiveEntries` | lib/scraper.ts:73-121 | a usable response always yields a non-empty list of normalised entries |
| `Scraper.ScrapeMedals` | lib/scraper.ts:73-143 | the method with its early returns and in-place passes returns exactly the snapshot `Standings` specifies |
| `Scraper.FallbackOnFailure` | lib/scraper.ts:25-39 | on every failure path the snapshot is stamped "fallback" and has one row "No data available" with rank 1, empty flag and all counts 0 |
| `Scraper.FailurePaths` | lib/scraper.ts:76-142 | a missing key, a non-OK status and a thrown error always fail; a parsed body fails exactly when no list is selected or some element is null |
| `Scraper.NeverEmpty` | lib/scraper.ts:135-138 | the standings are never empty; for a timestamp other than "fallback", the stamp is "fallback" exactly on the failure paths |
| `Scraper.LiveStandings` | lib/scraper.ts:111-138 | a live snapshot carries `now` and one row per raw entry; its rows are a permutation of the normalised entries up to rank; it is sorted by descending score with ties in feed order; every score is the weighted sum of its counts; the ranks follow the rank rules |
| `Scraper.LiveRanks` | lib/scraper.ts:126-133 | in a live snapshot, ranks lie in 1..i+1, never decrease, are shared by equal scores, and equal 1 + the number of higher scores |
| `Scraper.Deterministic` | lib/scraper.ts:123-133 | any stable descending sort followed by the rank loop gives the same rows |
| `Scraper.TwoRows` | lib/scraper.ts:102-133 | a bare two-element array gives its two normalised rows, ranked, with the lower score second |
| `Scraper.TwoRowRanks` | lib/scraper.ts:123-133 | of two countries, different scores are ranked 1 and 2 with the higher score first in either feed order; equal scores both get rank 1 and keep the feed order |

## Left out

- Network fetch, request headers, URL building, `response.text()` / `response.json()`
  and `console` logging: I/O. `Outcome` replaces them. `Threw` stands for any exception
  the `try` catches. `Ok(body)` is the parsed body.
- `process.env.RAPIDAPI_KEY`: environment access. `MissingKey` covers an unset or
  empty key.
- `new Date().toISOString()`: clock access. The timestamp is the parameter `now`. The
  model does not know that an ISO string never reads "fallback", so `NeverEmpty` assumes it.
- JavaScript numbers are doubles. Counts and scores here are unbounded integers. Rounding,
  NaN and the comparator's subtraction on doubles are not modelled.
- Non-numeric field values: `??` does no numeric parsing. A count is either absent or an
  integer, and no defaulting of malformed values is claimed.
- Keys of the response object other than the four conventional ones, and properties of
  non-object entries, are not modelled. An element whose properties can be read but hold
  none of the aliases is a `Record` with every field absent.
- The sorting algorithm inside `Array.prototype.sort` belongs to the JavaScript engine.
  `SortInPlace` uses an insertion sort instead. `SortUnique` shows that every stable
  descending sort gives the same array, so the result is the same.
- `app/page.tsx`, `app/opengraph-image.tsx`, `app/api/revalidate/route.ts`,
  `app/manifest.ts` and `app/Tooltip.tsx`: presentation, image rendering, cache
  revalidation and static metadata. They only consume the snapshot.
