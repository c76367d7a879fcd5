/**
 * `Array.prototype.filter`, which both components use: the book catalogue
 * filters and the new-loan user selector. Alongside it, what "keeps exactly the
 * matching elements, in order" means, and the algebra of chained filters.
 */
module Seqs {

  /** `s.filter(p)`: the elements of `s` that satisfy `p`, in their original order. */
  function Filter<T>(p: T -> bool, s: seq<T>): (r: seq<T>)
    ensures |r| <= |s|
    ensures forall x :: x in r ==> x in s && p(x)
    ensures forall x :: x in s && p(x) ==> x in r
    ensures multiset(r) <= multiset(s)
  {
    if s == [] then []
    else
      assert s == [s[0]] + s[1..];
      if p(s[0]) then [s[0]] + Filter(p, s[1..]) else Filter(p, s[1..])
  }

  /** `r` is `s` read at the strictly increasing indices `idx`: a subsequence of `s`. */
  ghost predicate Embeds<T>(idx: seq<nat>, r: seq<T>, s: seq<T>) {
    && |idx| == |r|
    && (forall i :: 0 <= i < |idx| ==> idx[i] < |s| && r[i] == s[idx[i]])
    && (forall i, j :: 0 <= i < j < |idx| ==> idx[i] < idx[j])
  }

  /** Every index moved up by one, as when an element is put in front. */
  ghost function Shift(xs: seq<nat>): (ys: seq<nat>)
    ensures |ys| == |xs|
    ensures forall i :: 0 <= i < |xs| ==> ys[i] == xs[i] + 1
  {
    seq(|xs|, i requires 0 <= i < |xs| => xs[i] + 1)
  }

  lemma ShiftHas(xs: seq<nat>, k: nat)
    ensures k in Shift(xs) <==> k >= 1 && k - 1 in xs
  {
    if k >= 1 && k - 1 in xs {
      var i :| 0 <= i < |xs| && xs[i] == k - 1;
      assert Shift(xs)[i] == k;
    }
  }

  /** The indices of `s` whose elements satisfy `p`, in increasing order. */
  ghost function Positions<T>(p: T -> bool, s: seq<T>): seq<nat> {
    if s == [] then []
    else if p(s[0]) then [0] + Shift(Positions(p, s[1..]))
    else Shift(Positions(p, s[1..]))
  }

  lemma EmbedsSkip<T>(idx: seq<nat>, r: seq<T>, h: T, t: seq<T>)
    requires Embeds(idx, r, t)
    ensures Embeds(Shift(idx), r, [h] + t)
  {
  }

  lemma EmbedsKeep<T>(idx: seq<nat>, r: seq<T>, h: T, t: seq<T>)
    requires Embeds(idx, r, t)
    ensures Embeds([0] + Shift(idx), [h] + r, [h] + t)
  {
    var jdx := [0] + Shift(idx);
    forall i, j | 0 <= i < j < |jdx|
      ensures jdx[i] < jdx[j]
    {
      if i > 0 {
        assert jdx[i] == idx[i - 1] + 1 && jdx[j] == idx[j - 1] + 1;
      }
    }
  }

  /**
   * The result of a filter is the input read at the positions of the matching
   * elements: order is kept, nothing is added or repeated, and an element is
   * dropped exactly when it fails the predicate.
   */
  lemma {:induction false} FilterEmbeds<T>(p: T -> bool, s: seq<T>)
    ensures Embeds(Positions(p, s), Filter(p, s), s)
    ensures forall k :: 0 <= k < |s| ==> (k in Positions(p, s) <==> p(s[k]))
  {
    if s != [] {
      var t := s[1..];
      assert s == [s[0]] + t;
      FilterEmbeds(p, t);
      var rest := Positions(p, t);
      if p(s[0]) {
        EmbedsKeep(rest, Filter(p, t), s[0], t);
      } else {
        EmbedsSkip(rest, Filter(p, t), s[0], t);
      }
      forall k | 0 <= k < |s|
        ensures k in Positions(p, s) <==> p(s[k])
      {
        ShiftHas(rest, k);
        if k > 0 {
          assert s[k] == t[k - 1];
        }
      }
    }
  }

  lemma {:induction false} FilterAppend<T>(p: T -> bool, x: seq<T>, y: seq<T>)
    ensures Filter(p, x + y) == Filter(p, x) + Filter(p, y)
  {
    if x == [] {
      assert x + y == y;
    } else {
      assert (x + y)[1..] == x[1..] + y;
      FilterAppend(p, x[1..], y);
    }
  }

  /** Filters with predicates that agree on every element give the same result. */
  lemma {:induction false} FilterExtensional<T>(p: T -> bool, q: T -> bool, s: seq<T>)
    requires forall x :: x in s ==> p(x) == q(x)
    ensures Filter(p, s) == Filter(q, s)
  {
    if s != [] {
      FilterExtensional(p, q, s[1..]);
    }
  }

  /** A filter keeps an input all of whose elements already pass. */
  lemma {:induction false} FilterKeepsAll<T>(p: T -> bool, s: seq<T>)
    requires forall x :: x in s ==> p(x)
    ensures Filter(p, s) == s
  {
    if s != [] {
      FilterKeepsAll(p, s[1..]);
    }
  }

  lemma FilterIdempotent<T>(p: T -> bool, s: seq<T>)
    ensures Filter(p, Filter(p, s)) == Filter(p, s)
  {
    FilterKeepsAll(p, Filter(p, s));
  }

  /** Two filters in a row are one filter on the conjunction. */
  lemma {:induction false} FilterCompose<T>(p: T -> bool, q: T -> bool, s: seq<T>)
    ensures Filter(q, Filter(p, s)) == Filter(x => p(x) && q(x), s)
  {
    if s != [] {
      FilterCompose(p, q, s[1..]);
      if p(s[0]) {
        assert Filter(p, s) == [s[0]] + Filter(p, s[1..]);
        FilterAppend(q, [s[0]], Filter(p, s[1..]));
      }
    }
  }

  /** Two filters in a row are one filter on any predicate equivalent to their conjunction. */
  lemma FilterComposeAs<T>(p: T -> bool, q: T -> bool, both: T -> bool, s: seq<T>)
    requires forall x :: both(x) == (p(x) && q(x))
    ensures Filter(q, Filter(p, s)) == Filter(both, s)
  {
    FilterCompose(p, q, s);
    FilterExtensional(x => p(x) && q(x), both, s);
  }

  /** The order in which two filters are applied does not matter. */
  lemma FilterCommutes<T>(p: T -> bool, q: T -> bool, s: seq<T>)
    ensures Filter(q, Filter(p, s)) == Filter(p, Filter(q, s))
  {
    FilterCompose(p, q, s);
    FilterCompose(q, p, s);
    FilterExtensional(x => p(x) && q(x), x => q(x) && p(x), s);
  }
}
