/** Counting over finite sequences: occurrences, sums and tallies against a
    fixed list of labels. These are the arithmetic facts behind the
    transition matrix's row, column and grand totals. */
module Counting {

  /** No label is listed twice. */
  predicate Distinct<T(==)>(s: seq<T>) {
    forall i, j :: 0 <= i < j < |s| ==> s[i] != s[j]
  }

  /** Number of positions of `xs` that hold `x`. */
  function Occurrences<T(==)>(xs: seq<T>, x: T): nat {
    if xs == [] then 0 else (if xs[0] == x then 1 else 0) + Occurrences(xs[1..], x)
  }

  function Sum(s: seq<nat>): nat {
    if s == [] then 0 else s[0] + Sum(s[1..])
  }

  /** For each label, in label order, how often it occurs in `xs`. */
  function Tally<T(==)>(xs: seq<T>, labels: seq<T>): (r: seq<nat>)
    ensures |r| == |labels|
    ensures forall j :: 0 <= j < |labels| ==> r[j] == Occurrences(xs, labels[j])
  {
    if labels == [] then [] else [Occurrences(xs, labels[0])] + Tally(xs, labels[1..])
  }

  lemma {:induction false} OccurrencesPositive<T>(xs: seq<T>, x: T)
    ensures Occurrences(xs, x) > 0 <==> x in xs
  {
    if xs != [] {
      OccurrencesPositive(xs[1..], x);
      assert xs == [xs[0]] + xs[1..];
    }
  }

  lemma {:induction false} OccurrencesAppend<T>(xs: seq<T>, ys: seq<T>, x: T)
    ensures Occurrences(xs + ys, x) == Occurrences(xs, x) + Occurrences(ys, x)
  {
    if xs == [] {
      assert xs + ys == ys;
    } else {
      assert (xs + ys)[1..] == xs[1..] + ys;
      OccurrencesAppend(xs[1..], ys, x);
    }
  }

  /** A label of a duplicate-free list occurs in it exactly once. */
  lemma {:induction false} OccurrencesOfDistinct<T>(labels: seq<T>, x: T)
    requires Distinct(labels) && x in labels
    ensures Occurrences(labels, x) == 1
  {
    if labels[0] == x {
      OccurrencesPositive(labels[1..], x);
    } else {
      OccurrencesOfDistinct(labels[1..], x);
    }
  }

  lemma {:induction false} SumAppend(s: seq<nat>, t: seq<nat>)
    ensures Sum(s + t) == Sum(s) + Sum(t)
  {
    if s == [] {
      assert s + t == t;
    } else {
      assert (s + t)[1..] == s[1..] + t;
      SumAppend(s[1..], t);
    }
  }

  /** Adding one observation `x` to the data raises the tally total by the
      number of times `x` is listed among the labels. */
  lemma {:induction false} TallyCons<T>(x: T, xs: seq<T>, labels: seq<T>)
    ensures Sum(Tally([x] + xs, labels)) == Sum(Tally(xs, labels)) + Occurrences(labels, x)
  {
    if labels != [] {
      assert ([x] + xs)[1..] == xs;
      TallyCons(x, xs, labels[1..]);
    }
  }

  /** When every observation carries one of the labels and no label is
      repeated, the tally accounts for every observation exactly once. */
  lemma {:induction false} TallyTotal<T>(xs: seq<T>, labels: seq<T>)
    requires Distinct(labels)
    requires forall k :: 0 <= k < |xs| ==> xs[k] in labels
    ensures Sum(Tally(xs, labels)) == |xs|
  {
    if xs == [] {
      if labels != [] {
        TallyTotal(xs, labels[1..]);
      }
    } else {
      assert xs == [xs[0]] + xs[1..];
      TallyCons(xs[0], xs[1..], labels);
      OccurrencesOfDistinct(labels, xs[0]);
      TallyTotal(xs[1..], labels);
    }
  }
}
