/** Counting moves and picking the most frequent one. The source does this in
    three places (the weighted and adaptive opponents and the favourite move of
    the statistics) with the same idiom: fill a record keyed rock, paper,
    scissors, list its entries in key order, sort them with the stable
    comparator `(a, b) => b[1] - a[1]` and take the first key. */
module Frequency {
  import opened Types

  /** The per-move counts of `ms`: each counter is the multiplicity of its move. */
  function Tally(ms: seq<Move>): (c: Counts)
    ensures forall m :: c.Get(m) == multiset(ms)[m]
    ensures c.Total() == |ms|
  {
    if |ms| == 0 then ZeroCounts
    else
      var init := ms[..|ms| - 1];
      assert ms == init + [ms[|ms| - 1]];
      Tally(init).Inc(ms[|ms| - 1])
  }

  /** Counting a concatenation adds the counts of its parts. */
  lemma TallyAppend(a: seq<Move>, b: seq<Move>)
    ensures forall m :: Tally(a + b).Get(m) == Tally(a).Get(m) + Tally(b).Get(m)
  {
    assert multiset(a + b) == multiset(a) + multiset(b);
  }

  /** The first move in key order whose count is maximal. */
  function MostFrequent(c: Counts): (m: Move)
    ensures forall x :: c.Get(x) <= c.Get(m)
    ensures forall x :: c.Get(x) == c.Get(m) ==> Rank(m) <= Rank(x)
  {
    if c.rock >= c.paper && c.rock >= c.scissors then Rock
    else if c.paper >= c.scissors then Paper
    else Scissors
  }

  /** Maximal count plus the key-order tie-break pins the move down. */
  lemma MostFrequentUnique(c: Counts, m: Move)
    requires forall x :: c.Get(x) <= c.Get(m)
    requires forall x :: c.Get(x) == c.Get(m) ==> Rank(m) <= Rank(x)
    ensures m == MostFrequent(c)
  {
    var f := MostFrequent(c);
    assert c.Get(f) == c.Get(m);
    assert Rank(m) <= Rank(f) && Rank(f) <= Rank(m);
  }

  /** The entries of a counts record in key order (`Object.entries`). */
  function Entries(c: Counts): seq<(Move, nat)>
  {
    [(Rock, c.rock), (Paper, c.paper), (Scissors, c.scissors)]
  }

  /** Insert `e` into a list sorted by descending count, after every entry whose
      count is at least `e`'s: later entries stay behind equal earlier ones. */
  function InsertDescending(e: (Move, nat), sorted: seq<(Move, nat)>): seq<(Move, nat)>
  {
    if |sorted| == 0 then [e]
    else if sorted[0].1 >= e.1 then [sorted[0]] + InsertDescending(e, sorted[1..])
    else [e] + sorted
  }

  /** Stable sort by descending count (insertion sort, one entry at a time). */
  function SortDescending(es: seq<(Move, nat)>): seq<(Move, nat)>
  {
    if |es| == 0 then []
    else InsertDescending(es[|es| - 1], SortDescending(es[..|es| - 1]))
  }

  /** The key at the head of the stably sorted entries is the most frequent
      move with ties going to the earlier key. */
  lemma SortedHeadIsMostFrequent(c: Counts)
    ensures |SortDescending(Entries(c))| > 0
    ensures SortDescending(Entries(c))[0].0 == MostFrequent(c)
  {
    var es := Entries(c);
    var e1: seq<(Move, nat)> := es[..1];
    var e0: seq<(Move, nat)> := e1[..0];
    assert SortDescending(e0) == [];
    assert e1[0] == (Rock, c.rock);
    var s1 := SortDescending(es[..1]);
    assert s1 == [(Rock, c.rock)];
    assert es[..2][..1] == es[..1];
    var s2 := SortDescending(es[..2]);
    assert s2 == InsertDescending((Paper, c.paper), s1);
    assert es[..3] == es;
    var s3 := SortDescending(es);
    assert s3 == InsertDescending((Scissors, c.scissors), s2);
    if c.rock >= c.paper {
      assert s2 == [(Rock, c.rock), (Paper, c.paper)];
    } else {
      assert s2 == [(Paper, c.paper), (Rock, c.rock)];
    }
  }
}
