/** The in-place sort of the standings by descending weighted score. The sort is stable
    (Array.prototype.sort is required to be), so entries with equal scores keep the
    order the feed gave them. */
module Ordering {
  import opened Entries

  /** Every entry scores at least as much as every later one. */
  predicate SortedDesc(s: seq<MedalEntry>)
  {
    forall p, q | 0 <= p < q < |s| :: s[p].calculatedTotal >= s[q].calculatedTotal
  }

  /** The entries of s whose score is t, in their order in s. */
  function Tied(s: seq<MedalEntry>, t: int): (r: seq<MedalEntry>)
    ensures |r| <= |s|
  {
    if s == [] then []
    else (if s[0].calculatedTotal == t then [s[0]] else []) + Tied(s[1..], t)
  }

  /** s and u hold, for every score, the same entries in the same order. */
  ghost predicate SameTies(s: seq<MedalEntry>, u: seq<MedalEntry>)
  {
    forall t :: Tied(s, t) == Tied(u, t)
  }

  lemma {:induction false} TiedAppend(u: seq<MedalEntry>, v: seq<MedalEntry>, t: int)
    ensures Tied(u + v, t) == Tied(u, t) + Tied(v, t)
  {
    if u == [] {
      assert u + v == v;
    } else {
      var w := u + v;
      var head := if u[0].calculatedTotal == t then [u[0]] else [];
      assert w[0] == u[0];
      assert w[1..] == u[1..] + v;
      TiedAppend(u[1..], v, t);
      assert Tied(w, t) == head + (Tied(u[1..], t) + Tied(v, t));
      assert Tied(u, t) == head + Tied(u[1..], t);
    }
  }

  /** Exchanging two neighbours with different scores keeps every tie class. */
  lemma SwapKeepsTies(s: seq<MedalEntry>, j: nat)
    requires 0 < j < |s|
    requires s[j - 1].calculatedTotal != s[j].calculatedTotal
    ensures SameTies(s[j - 1 := s[j]][j := s[j - 1]], s)
  {
    var w := s[j - 1 := s[j]][j := s[j - 1]];
    var pre, post := s[..j - 1], s[j + 1..];
    assert s == pre + [s[j - 1], s[j]] + post;
    assert w == pre + [s[j], s[j - 1]] + post;
    forall t ensures Tied(w, t) == Tied(s, t) {
      TiedAppend(pre + [s[j], s[j - 1]], post, t);
      TiedAppend(pre, [s[j], s[j - 1]], t);
      TiedAppend(pre + [s[j - 1], s[j]], post, t);
      TiedAppend(pre, [s[j - 1], s[j]], t);
      assert [s[j], s[j - 1]][1..] == [s[j - 1]];
      assert [s[j - 1], s[j]][1..] == [s[j]];
    }
  }

  /** Inserts x into a descending list ahead of the first entry that does not outscore
      it, hence ahead of every entry with the same score. */
  function Insert(x: MedalEntry, s: seq<MedalEntry>): (r: seq<MedalEntry>)
    ensures |r| == |s| + 1
  {
    if s == [] then [x]
    else if x.calculatedTotal >= s[0].calculatedTotal then [x] + s
    else [s[0]] + Insert(x, s[1..])
  }

  /** The stable descending sort, as a reference: insertion from the back. */
  function SortByScore(s: seq<MedalEntry>): (r: seq<MedalEntry>)
    ensures |r| == |s|
  {
    if s == [] then [] else Insert(s[0], SortByScore(s[1..]))
  }

  lemma {:induction false} InsertPermutation(x: MedalEntry, s: seq<MedalEntry>)
    ensures multiset(Insert(x, s)) == multiset(s) + multiset{x}
  {
    if s != [] && x.calculatedTotal < s[0].calculatedTotal {
      InsertPermutation(x, s[1..]);
      assert s == [s[0]] + s[1..];
    }
  }

  /** The reference sort returns a permutation of its input. */
  lemma {:induction false} SortByScorePermutation(s: seq<MedalEntry>)
    ensures multiset(SortByScore(s)) == multiset(s)
  {
    if s != [] {
      SortByScorePermutation(s[1..]);
      InsertPermutation(s[0], SortByScore(s[1..]));
      assert s == [s[0]] + s[1..];
    }
  }

  lemma {:induction false} InsertSorted(x: MedalEntry, s: seq<MedalEntry>)
    requires SortedDesc(s)
    ensures SortedDesc(Insert(x, s))
  {
    if s != [] && x.calculatedTotal < s[0].calculatedTotal {
      InsertSorted(x, s[1..]);
      InsertPermutation(x, s[1..]);
      var r := Insert(x, s[1..]);
      forall q | 0 <= q < |r| ensures r[q].calculatedTotal <= s[0].calculatedTotal {
        assert r[q] in multiset(r);
      }
    }
  }

  lemma {:induction false} InsertTies(x: MedalEntry, s: seq<MedalEntry>, t: int)
    requires SortedDesc(s)
    ensures Tied(Insert(x, s), t) == Tied([x], t) + Tied(s, t)
  {
    if s == [] {
    } else if x.calculatedTotal >= s[0].calculatedTotal {
      TiedAppend([x], s, t);
    } else {
      var rest := Insert(x, s[1..]);
      assert SortedDesc(s[1..]);
      InsertTies(x, s[1..], t);
      assert Insert(x, s) == [s[0]] + rest;
      TiedAppend([s[0]], rest, t);
      assert s == [s[0]] + s[1..];
      TiedAppend([s[0]], s[1..], t);
      assert Tied([s[0]], t) == [] || Tied([x], t) == [];
    }
  }

  /** The reference sort is descending. */
  lemma {:induction false} SortByScoreSorted(s: seq<MedalEntry>)
    ensures SortedDesc(SortByScore(s))
  {
    if s != [] {
      SortByScoreSorted(s[1..]);
      InsertSorted(s[0], SortByScore(s[1..]));
    }
  }

  /** The reference sort is stable: every tie class keeps its input order. */
  lemma {:induction false} SortByScoreStable(s: seq<MedalEntry>)
    ensures SameTies(SortByScore(s), s)
  {
    if s != [] {
      var rest := SortByScore(s[1..]);
      SortByScoreSorted(s[1..]);
      SortByScoreStable(s[1..]);
      assert SortByScore(s) == Insert(s[0], rest);
      assert s == [s[0]] + s[1..];
      forall t ensures Tied(SortByScore(s), t) == Tied(s, t) {
        InsertTies(s[0], rest, t);
        TiedAppend([s[0]], s[1..], t);
        assert Tied(rest, t) == Tied(s[1..], t);
      }
    }
  }

  /** The first entry belongs to the tie class of its own score. */
  lemma LeaderTied(s: seq<MedalEntry>)
    requires s != []
    ensures Tied(s, s[0].calculatedTotal) != []
  {
  }

  /** A sorted list with some score t starts with a score of at least t. */
  lemma {:induction false} TopOutscores(s: seq<MedalEntry>, t: int)
    requires SortedDesc(s) && Tied(s, t) != []
    ensures s[0].calculatedTotal >= t
  {
    if s[0].calculatedTotal != t {
      TopOutscores(s[1..], t);
    }
  }

  /** Sorted descending and stable determine the result: two sorted arrangements with the
      same tie classes are equal. So any stable sort agrees with SortByScore. */
  lemma {:induction false} SortUnique(x: seq<MedalEntry>, y: seq<MedalEntry>)
    requires SortedDesc(x) && SortedDesc(y) && SameTies(x, y)
    ensures x == y
  {
    if x == [] || y == [] {
      // a non-empty side would have a non-empty tie class for its first score
      if x != [] {
        LeaderTied(x);
        assert false;
      } else if y != [] {
        LeaderTied(y);
        assert false;
      }
    } else {
      var m, n := x[0].calculatedTotal, y[0].calculatedTotal;
      assert Tied(x, m) == [x[0]] + Tied(x[1..], m);
      assert Tied(y, n) == [y[0]] + Tied(y[1..], n);
      assert Tied(y, m) == Tied(x, m);
      assert Tied(x, n) == Tied(y, n);
      TopOutscores(y, m);
      TopOutscores(x, n);
      assert m == n;
      assert x[0] == Tied(x, m)[0] == Tied(y, m)[0] == y[0];
      forall t ensures Tied(x[1..], t) == Tied(y[1..], t) {
        assert Tied(x, t) == Tied(y, t);
        if t == m {
          assert Tied(x[1..], t) == Tied(x, t)[1..];
          assert Tied(y[1..], t) == Tied(y, t)[1..];
        } else {
          assert Tied(x[1..], t) == Tied(x, t);
          assert Tied(y[1..], t) == Tied(y, t);
        }
      }
      SortUnique(x[1..], y[1..]);
      assert x == [x[0]] + x[1..];
      assert y == [y[0]] + y[1..];
    }
  }

  /** The first i + 1 entries of s are in order except for the one at j, which
      outscores every entry after it up to i. */
  predicate Sifting(s: seq<MedalEntry>, j: nat, i: nat)
    requires j <= i < |s|
  {
    && (forall p, q | 0 <= p < q <= i && p != j && q != j ::
          s[p].calculatedTotal >= s[q].calculatedTotal)
    && (forall q | j < q <= i :: s[j].calculatedTotal > s[q].calculatedTotal)
  }

  /** Moving the sifted entry one place left, past an entry it outscores, keeps Sifting. */
  lemma SiftStep(s: seq<MedalEntry>, j: nat, i: nat)
    requires 0 < j <= i < |s| && Sifting(s, j, i)
    requires s[j - 1].calculatedTotal < s[j].calculatedTotal
    ensures Sifting(s[j - 1 := s[j]][j := s[j - 1]], j - 1, i)
  {
  }

  /** Sifting stops once the sifted entry is first or does not outscore its left
      neighbour; then the first i + 1 entries are sorted. */
  lemma SiftDone(s: seq<MedalEntry>, j: nat, i: nat)
    requires j <= i < |s| && Sifting(s, j, i)
    requires j == 0 || s[j - 1].calculatedTotal >= s[j].calculatedTotal
    ensures SortedDesc(s[..i + 1])
  {
    forall p, q | 0 <= p < q <= i ensures s[p].calculatedTotal >= s[q].calculatedTotal {
      if q == j && p < j - 1 {
        assert s[p].calculatedTotal >= s[j - 1].calculatedTotal;
      }
    }
  }

  /** One step of the insertion sort: the entry at index i moves left past every entry
      it outscores, so the first i + 1 entries end sorted. */
  method InsertAt(a: array<MedalEntry>, i: nat)
    requires i < a.Length && SortedDesc(a[..i])
    modifies a
    ensures SortedDesc(a[..i + 1])
    ensures SameTies(a[..], old(a[..]))
    ensures a[i + 1..] == old(a[i + 1..])
  {
    var j := i;
    assert Sifting(a[..], j, i);
    while j > 0 && a[j - 1].calculatedTotal < a[j].calculatedTotal
      invariant 0 <= j <= i
      invariant Sifting(a[..], j, i)
      invariant SameTies(a[..], old(a[..]))
      invariant a[i + 1..] == old(a[i + 1..])
    {
      ghost var before := a[..];
      a[j - 1], a[j] := a[j], a[j - 1];
      assert a[..] == before[j - 1 := before[j]][j := before[j - 1]];
      SiftStep(before, j, i);
      SwapKeepsTies(before, j);
      j := j - 1;
    }
    SiftDone(a[..], j, i);
  }

  /** `medals.sort((a, b) => b.calculatedTotal - a.calculatedTotal)`, as a stable
      insertion sort. */
  method SortInPlace(a: array<MedalEntry>)
    modifies a
    ensures SortedDesc(a[..])
    ensures SameTies(a[..], old(a[..]))
    ensures a[..] == SortByScore(old(a[..]))
  {
    var i := 0;
    while i < a.Length
      invariant 0 <= i <= a.Length
      invariant SortedDesc(a[..i])
      invariant SameTies(a[..], old(a[..]))
    {
      InsertAt(a, i);
      i := i + 1;
    }
    assert a[..a.Length] == a[..];
    SortByScoreSorted(old(a[..]));
    SortByScoreStable(old(a[..]));
    SortUnique(a[..], SortByScore(old(a[..])));
  }
}
