/** Pairing the cleaned "before" and "after" series and counting the pairs
    into the transition matrix: `reset_index(drop=True)`, the two-column
    DataFrame with `dropna`, `pd.crosstab` and `reindex(fill_value=0)`. */
module Transition {
  import opened Counting
  import opened Likert

  datatype Option<T> = None | Some(value: T)

  type Pair = (string, string)

  // ---------------------------------------------------------------------
  // Index labels and positional pairing

  /** `values` as a Series labelled `off`, `off + 1`, ...: a column read with
      a default RangeIndex when `off` is 0. */
  function Indexed(values: seq<string>, off: nat): (r: Series)
    ensures |r| == |values|
    ensures forall k :: 0 <= k < |values| ==> r[k] == Entry(off + k, values[k])
  {
    if values == [] then [] else [Entry(off, values[0])] + Indexed(values[1..], off + 1)
  }

  /** `reset_index(drop=True)`: same values, labels renumbered from 0. */
  function ResetIndex(s: Series): Series {
    Indexed(Values(s), 0)
  }

  /** The value stored under index label `key`, if any. */
  function Lookup(s: Series, key: nat): Option<string> {
    if s == [] then None
    else if s[0].index == key then Some(s[0].value)
    else Lookup(s[1..], key)
  }

  /** `pd.DataFrame({"before": b, "after": a}).dropna()`: the frame aligns
      the two columns on their index labels and `dropna` keeps the rows
      where both are present, that is, the labels of `b` that `a` also has.
      Rows follow `b`'s order, which is ascending-label order whenever `b`'s
      labels ascend, as they do after `ResetIndex`. */
  function AlignDropNa(b: Series, a: Series): seq<Pair> {
    if b == [] then []
    else
      (match Lookup(a, b[0].index)
       case Some(x) => [(b[0].value, x)]
       case None => [])
      + AlignDropNa(b[1..], a)
  }

  /** Reference pairing: position by position, cut to the shorter input. */
  function Zip(xs: seq<string>, ys: seq<string>): (r: seq<Pair>)
    ensures |r| == if |xs| <= |ys| then |xs| else |ys|
    ensures forall k :: 0 <= k < |r| ==> r[k] == (xs[k], ys[k])
  {
    if xs == [] || ys == [] then [] else [(xs[0], ys[0])] + Zip(xs[1..], ys[1..])
  }

  /** scripts/sankey.py lines 38-40 and 102-104: reset both cleaned series,
      align them in one frame, drop the incomplete rows. */
  function PairResponses(before: Series, after: Series): seq<Pair> {
    AlignDropNa(ResetIndex(before), ResetIndex(after))
  }

  lemma {:induction false} LookupIndexed(ys: seq<string>, off: nat, key: nat)
    ensures Lookup(Indexed(ys, off), key)
            == if off <= key < off + |ys| then Some(ys[key - off]) else None
  {
    if ys != [] {
      LookupIndexed(ys[1..], off + 1, key);
      assert Indexed(ys, off)[1..] == Indexed(ys[1..], off + 1);
    }
  }

  function Drop(ys: seq<string>, n: nat): seq<string> {
    if n <= |ys| then ys[n..] else []
  }

  lemma {:induction false} AlignIndexed(xs: seq<string>, off: nat, ys: seq<string>)
    ensures AlignDropNa(Indexed(xs, off), Indexed(ys, 0)) == Zip(xs, Drop(ys, off))
  {
    if xs != [] {
      AlignIndexed(xs[1..], off + 1, ys);
      LookupIndexed(ys, 0, off);
      var b := Indexed(xs, off);
      assert b[1..] == Indexed(xs[1..], off + 1);
      if off < |ys| {
        assert Drop(ys, off)[1..] == Drop(ys, off + 1);
      }
    }
  }

  /** Pairing after `reset_index` is positional: the k-th cleaned "before"
      answer meets the k-th cleaned "after" answer, and there are exactly as
      many pairs as the shorter cleaned series has entries. */
  lemma PairingIsPositional(before: Series, after: Series)
    ensures PairResponses(before, after) == Zip(Values(before), Values(after))
    ensures |PairResponses(before, after)| == if |before| <= |after| then |before| else |after|
    ensures forall k :: 0 <= k < |PairResponses(before, after)| ==>
              PairResponses(before, after)[k] == (before[k].value, after[k].value)
  {
    AlignIndexed(Values(before), 0, Values(after));
    assert Drop(Values(after), 0) == Values(after);
  }

  /** Because each side is cleaned on its own before the reset, pairing is
      by position in the cleaned series and not by respondent: here
      respondent 0's "before" cell was dropped, so respondent 1's "before"
      answer is paired with respondent 0's "after" answer, while aligning on
      the original row labels would have paired it with respondent 1's. */
  lemma PairingIgnoresRespondent()
    ensures PairResponses([Entry(1, "Agree")], [Entry(0, "Agree"), Entry(1, "Disagree")])
            == [("Agree", "Agree")]
    ensures AlignDropNa([Entry(1, "Agree")], [Entry(0, "Agree"), Entry(1, "Disagree")])
            == [("Agree", "Disagree")]
  {
    PairingIsPositional([Entry(1, "Agree")], [Entry(0, "Agree"), Entry(1, "Disagree")]);
  }

  // ---------------------------------------------------------------------
  // Crosstab and reindex

  /** `pd.crosstab(before, after)`, as the count of every combination that
      occurs; a combination that does not occur has no entry (pandas shows
      some of them as 0, which `reindex(fill_value=0)` makes irrelevant). */
  function Crosstab(pairs: seq<Pair>): map<Pair, nat> {
    if pairs == [] then map[]
    else
      var ct := Crosstab(pairs[1..]);
      ct[pairs[0] := (if pairs[0] in ct then ct[pairs[0]] else 0) + 1]
  }

  /** The crosstab has an entry for exactly the combinations that occur,
      holding how often each occurs. */
  lemma {:induction false} CrosstabCounts(pairs: seq<Pair>)
    ensures forall p :: p in Crosstab(pairs) <==> p in pairs
    ensures forall p :: p in Crosstab(pairs) ==> Crosstab(pairs)[p] == Occurrences(pairs, p)
  {
    if pairs != [] {
      CrosstabCounts(pairs[1..]);
      OccurrencesAbsent(pairs[1..]);
      var ct := Crosstab(pairs[1..]);
      forall p ensures p in Crosstab(pairs) <==> p in pairs {
        assert p in pairs <==> p == pairs[0] || p in pairs[1..] by {
          assert pairs == [pairs[0]] + pairs[1..];
        }
      }
    }
  }

  lemma OccurrencesAbsent<T>(xs: seq<T>)
    ensures forall x :: x !in xs ==> Occurrences(xs, x) == 0
  {
    forall x | x !in xs ensures Occurrences(xs, x) == 0 {
      OccurrencesPositive(xs, x);
    }
  }

  predicate Square(m: seq<seq<nat>>, n: nat) {
    |m| == n && forall i :: 0 <= i < n ==> |m[i]| == n
  }

  /** `.reindex(index=scale, columns=scale, fill_value=0)`: rows and
      columns are exactly the scale labels in scale order; a missing cell
      reads 0. */
  function Reindex(ct: map<Pair, nat>, scale: seq<string>): (m: seq<seq<nat>>)
    ensures Square(m, |scale|)
  {
    seq(|scale|, i requires 0 <= i < |scale| =>
      seq(|scale|, j requires 0 <= j < |scale| =>
        if (scale[i], scale[j]) in ct then ct[(scale[i], scale[j])] else 0))
  }

  /** The transition matrix of scripts/sankey.py lines 41-42 and 106-107. */
  function TransitionMatrix(pairs: seq<Pair>, scale: seq<string>): seq<seq<nat>> {
    Reindex(Crosstab(pairs), scale)
  }

  /** Cell (i, j) counts the pairs (scale[i], scale[j]); absent ones read 0. */
  lemma TransitionCounts(pairs: seq<Pair>, scale: seq<string>)
    ensures Square(TransitionMatrix(pairs, scale), |scale|)
    ensures forall i, j :: 0 <= i < |scale| && 0 <= j < |scale| ==>
              TransitionMatrix(pairs, scale)[i][j] == Occurrences(pairs, (scale[i], scale[j]))
  {
    CrosstabCounts(pairs);
    OccurrencesAbsent(pairs);
  }

  // ---------------------------------------------------------------------
  // Marginals

  /** Every paired answer is one of the scale's labels. */
  predicate OnScale(pairs: seq<Pair>, scale: seq<string>) {
    forall k :: 0 <= k < |pairs| ==> pairs[k].0 in scale && pairs[k].1 in scale
  }

  function Befores(pairs: seq<Pair>): (r: seq<string>)
    ensures |r| == |pairs| && forall k :: 0 <= k < |pairs| ==> r[k] == pairs[k].0
  {
    if pairs == [] then [] else [pairs[0].0] + Befores(pairs[1..])
  }

  function Afters(pairs: seq<Pair>): (r: seq<string>)
    ensures |r| == |pairs| && forall k :: 0 <= k < |pairs| ==> r[k] == pairs[k].1
  {
    if pairs == [] then [] else [pairs[0].1] + Afters(pairs[1..])
  }

  /** The "after" answers of the pairs whose "before" answer is `b`. */
  function AftersOf(pairs: seq<Pair>, b: string): seq<string> {
    if pairs == [] then []
    else (if pairs[0].0 == b then [pairs[0].1] else []) + AftersOf(pairs[1..], b)
  }

  function Swap(pairs: seq<Pair>): (r: seq<Pair>)
    ensures |r| == |pairs| && forall k :: 0 <= k < |pairs| ==> r[k] == (pairs[k].1, pairs[k].0)
  {
    if pairs == [] then [] else [(pairs[0].1, pairs[0].0)] + Swap(pairs[1..])
  }

  lemma {:induction false} AftersOfFacts(pairs: seq<Pair>, b: string, a: string, scale: seq<string>)
    ensures Occurrences(AftersOf(pairs, b), a) == Occurrences(pairs, (b, a))
    ensures |AftersOf(pairs, b)| == Occurrences(Befores(pairs), b)
    ensures OnScale(pairs, scale) ==>
              forall k :: 0 <= k < |AftersOf(pairs, b)| ==> AftersOf(pairs, b)[k] in scale
  {
    if pairs != [] {
      AftersOfFacts(pairs[1..], b, a, scale);
      var head := if pairs[0].0 == b then [pairs[0].1] else [];
      OccurrencesAppend(head, AftersOf(pairs[1..], b), a);
      assert Befores(pairs)[1..] == Befores(pairs[1..]);
      if OnScale(pairs, scale) {
        assert OnScale(pairs[1..], scale) by {
          forall k | 0 <= k < |pairs[1..]| ensures pairs[1..][k].0 in scale && pairs[1..][k].1 in scale {
            assert pairs[1..][k] == pairs[k + 1];
          }
        }
      }
    }
  }

  lemma {:induction false} SwapCounts(pairs: seq<Pair>, b: string, a: string)
    ensures Occurrences(Swap(pairs), (a, b)) == Occurrences(pairs, (b, a))
  {
    if pairs != [] {
      SwapCounts(pairs[1..], b, a);
      assert Swap(pairs)[1..] == Swap(pairs[1..]);
    }
  }

  /** Row sums are the "before" counts over the paired prefix. */
  lemma RowSum(pairs: seq<Pair>, scale: seq<string>, i: nat)
    requires Distinct(scale) && OnScale(pairs, scale) && i < |scale|
    ensures Sum(TransitionMatrix(pairs, scale)[i]) == Occurrences(Befores(pairs), scale[i])
  {
    var m := TransitionMatrix(pairs, scale);
    var b := scale[i];
    var afters := AftersOf(pairs, b);
    TransitionCounts(pairs, scale);
    forall j | 0 <= j < |scale| ensures m[i][j] == Tally(afters, scale)[j] {
      AftersOfFacts(pairs, b, scale[j], scale);
    }
    assert m[i] == Tally(afters, scale);
    AftersOfFacts(pairs, b, b, scale);
    TallyTotal(afters, scale);
  }

  /** Column `j` of a matrix whose rows all reach past `j`. */
  function Column(m: seq<seq<nat>>, j: nat): (c: seq<nat>)
    requires forall i :: 0 <= i < |m| ==> j < |m[i]|
    ensures |c| == |m| && forall i :: 0 <= i < |m| ==> c[i] == m[i][j]
  {
    if m == [] then [] else [m[0][j]] + Column(m[1..], j)
  }

  /** Column sums are the "after" counts over the paired prefix. */
  lemma ColumnSum(pairs: seq<Pair>, scale: seq<string>, j: nat)
    requires Distinct(scale) && OnScale(pairs, scale) && j < |scale|
    ensures Square(TransitionMatrix(pairs, scale), |scale|)
    ensures Sum(Column(TransitionMatrix(pairs, scale), j)) == Occurrences(Afters(pairs), scale[j])
  {
    var m := TransitionMatrix(pairs, scale);
    var swapped := Swap(pairs);
    TransitionCounts(pairs, scale);
    TransitionCounts(swapped, scale);
    forall i | 0 <= i < |scale| ensures Column(m, j)[i] == TransitionMatrix(swapped, scale)[j][i] {
      SwapCounts(pairs, scale[i], scale[j]);
    }
    assert Column(m, j) == TransitionMatrix(swapped, scale)[j];
    assert Befores(swapped) == Afters(pairs);
    RowSum(swapped, scale, j);
  }

  /** Sum of every cell. */
  function MatrixTotal(m: seq<seq<nat>>): nat {
    if m == [] then 0 else Sum(m[0]) + MatrixTotal(m[1..])
  }

  /** The row sums, in row order. */
  function RowSums(m: seq<seq<nat>>): (r: seq<nat>)
    ensures |r| == |m| && forall i :: 0 <= i < |m| ==> r[i] == Sum(m[i])
  {
    if m == [] then [] else [Sum(m[0])] + RowSums(m[1..])
  }

  lemma {:induction false} MatrixTotalIsSumOfRows(m: seq<seq<nat>>)
    ensures MatrixTotal(m) == Sum(RowSums(m))
  {
    if m != [] {
      MatrixTotalIsSumOfRows(m[1..]);
      assert RowSums(m)[1..] == RowSums(m[1..]);
    }
  }

  /** The matrix accounts for every pair exactly once. */
  lemma MatrixTotalIsPairCount(pairs: seq<Pair>, scale: seq<string>)
    requires Distinct(scale) && OnScale(pairs, scale)
    ensures MatrixTotal(TransitionMatrix(pairs, scale)) == |pairs|
  {
    var m := TransitionMatrix(pairs, scale);
    TransitionCounts(pairs, scale);
    forall i | 0 <= i < |scale| ensures RowSums(m)[i] == Tally(Befores(pairs), scale)[i] {
      RowSum(pairs, scale, i);
    }
    assert RowSums(m) == Tally(Befores(pairs), scale);
    MatrixTotalIsSumOfRows(m);
    TallyTotal(Befores(pairs), scale);
  }
}
