/** Bounded newest-first lists: `[item, ...list].slice(0, cap)`, the way the
    stores keep their game history and their tournament archive. */
module Lists {

  function Min(a: nat, b: nat): nat
  {
    if a <= b then a else b
  }

  /** `x` goes in front; the old entries follow, shifted by one, and whatever
      falls beyond `cap` is dropped. */
  function PrependCapped<T>(x: T, xs: seq<T>, cap: nat): (r: seq<T>)
    ensures |r| <= cap
    ensures |r| == Min(cap, |xs| + 1)
    ensures cap > 0 ==> r[0] == x
    ensures forall i :: 1 <= i < |r| ==> r[i] == xs[i - 1]
  {
    ([x] + xs)[..Min(cap, |xs| + 1)]
  }

  /** Once the list is full, every further prepend drops exactly the oldest entry. */
  lemma PrependCappedAtCapacity<T>(x: T, xs: seq<T>, cap: nat)
    requires cap > 0 && |xs| == cap
    ensures PrependCapped(x, xs, cap) == [x] + xs[..cap - 1]
  {
    var r := PrependCapped(x, xs, cap);
    assert |r| == cap;
    assert forall i :: 0 <= i < cap ==> r[i] == ([x] + xs[..cap - 1])[i];
  }

  /** The list read from the other end: a newest-first list becomes
      oldest-first. */
  function Reverse<T>(xs: seq<T>): (r: seq<T>)
    ensures |r| == |xs|
    ensures forall i :: 0 <= i < |xs| ==> r[i] == xs[|xs| - 1 - i]
  {
    if |xs| == 0 then [] else Reverse(xs[1..]) + [xs[0]]
  }

  /** Reversing keeps every element with its multiplicity. */
  lemma {:induction false} ReverseMultiset<T>(xs: seq<T>)
    ensures multiset(Reverse(xs)) == multiset(xs)
  {
    if |xs| > 0 {
      ReverseMultiset(xs[1..]);
      assert xs == [xs[0]] + xs[1..];
    }
  }
}
