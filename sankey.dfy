/** The data half of `make_trust_sankey`, `make_trust_sankey_3bin` and
    `make_trust_sankey_3bin_ordered`: node labels, the `src`/`tgt`/`val`
    link lists walked out of the transition matrix, and the whole pipeline
    from two spreadsheet frames to those lists. */
module Sankey {
  import opened Counting
  import opened Likert
  import opened Transition

  /** One Sankey link: from "before" node `source` to "after" node `target`. */
  datatype Link = Link(source: nat, target: nat, value: nat)

  // ---------------------------------------------------------------------
  // Specification of the link loops

  /** The links the inner loop emits for the first `j` cells of row `i`,
      with "after" nodes numbered from `n`. */
  function RowLinks(row: seq<nat>, i: nat, n: nat, j: nat): seq<Link>
    requires j <= |row|
  {
    if j == 0 then []
    else RowLinks(row, i, n, j - 1) + (if row[j - 1] > 0 then [Link(i, n + j - 1, row[j - 1])] else [])
  }

  /** The links the outer loop has emitted after its first `i` rows. */
  function LinksUpTo(m: seq<seq<nat>>, i: nat): seq<Link>
    requires i <= |m|
  {
    if i == 0 then [] else LinksUpTo(m, i - 1) + RowLinks(m[i - 1], i - 1, |m|, |m[i - 1]|)
  }

  /** All links of a square matrix, in the order the loops emit them. */
  function Links(m: seq<seq<nat>>): seq<Link> {
    LinksUpTo(m, |m|)
  }

  /** Row-major order of cells. */
  predicate Precedes(x: Link, y: Link) {
    x.source < y.source || (x.source == y.source && x.target < y.target)
  }

  predicate RowMajor(ls: seq<Link>) {
    forall k, k' :: 0 <= k < k' < |ls| ==> Precedes(ls[k], ls[k'])
  }

  function SumValues(ls: seq<Link>): nat {
    if ls == [] then 0 else ls[0].value + SumValues(ls[1..])
  }

  lemma {:induction false} SumValuesAppend(a: seq<Link>, b: seq<Link>)
    ensures SumValues(a + b) == SumValues(a) + SumValues(b)
  {
    if a == [] {
      assert a + b == b;
    } else {
      assert (a + b)[1..] == a[1..] + b;
      SumValuesAppend(a[1..], b);
    }
  }

  lemma RowMajorAppend(a: seq<Link>, b: seq<Link>)
    requires RowMajor(a) && RowMajor(b)
    requires forall k, k' :: 0 <= k < |a| && 0 <= k' < |b| ==> Precedes(a[k], b[k'])
    ensures RowMajor(a + b)
  {
    forall k, k' | 0 <= k < k' < |a + b| ensures Precedes((a + b)[k], (a + b)[k']) {
      if k' < |a| {
        assert (a + b)[k] == a[k] && (a + b)[k'] == a[k'];
      } else if k < |a| {
        assert (a + b)[k] == a[k] && (a + b)[k'] == b[k' - |a|];
      } else {
        assert (a + b)[k] == b[k - |a|] && (a + b)[k'] == b[k' - |a|];
      }
    }
  }

  /** A link of row `i`, among its first `j` cells, with "after" nodes
      numbered from `n`: it carries the cell's non-zero count. */
  predicate RowLinkOk(l: Link, row: seq<nat>, i: nat, n: nat, j: nat)
    requires j <= |row|
  {
    l.source == i && n <= l.target < n + j && row[l.target - n] == l.value && l.value > 0
  }

  predicate RowLinksOk(ls: seq<Link>, row: seq<nat>, i: nat, n: nat, j: nat)
    requires j <= |row|
  {
    forall k :: 0 <= k < |ls| ==> RowLinkOk(ls[k], row, i, n, j)
  }

  /** Every link of a row comes from one of its non-zero cells. */
  lemma {:induction false} RowLinksSound(row: seq<nat>, i: nat, n: nat, j: nat)
    requires j <= |row|
    ensures RowLinksOk(RowLinks(row, i, n, j), row, i, n, j)
  {
    if j > 0 {
      RowLinksSound(row, i, n, j - 1);
      var prev := RowLinks(row, i, n, j - 1);
      var cell := if row[j - 1] > 0 then [Link(i, n + j - 1, row[j - 1])] else [];
      assert RowLinks(row, i, n, j) == prev + cell;
      forall k | 0 <= k < |prev + cell| ensures RowLinkOk((prev + cell)[k], row, i, n, j) {
        if k < |prev| {
          assert (prev + cell)[k] == prev[k];
          assert RowLinkOk(prev[k], row, i, n, j - 1);
        }
      }
    }
  }

  /** A row's links come in column order. */
  lemma {:induction false} RowLinksOrdered(row: seq<nat>, i: nat, n: nat, j: nat)
    requires j <= |row|
    ensures RowMajor(RowLinks(row, i, n, j))
  {
    if j > 0 {
      RowLinksOrdered(row, i, n, j - 1);
      RowLinksSound(row, i, n, j - 1);
      var prev := RowLinks(row, i, n, j - 1);
      var cell := if row[j - 1] > 0 then [Link(i, n + j - 1, row[j - 1])] else [];
      forall k, k' | 0 <= k < |prev| && 0 <= k' < |cell| ensures Precedes(prev[k], cell[k']) {
        assert RowLinkOk(prev[k], row, i, n, j - 1);
      }
      RowMajorAppend(prev, cell);
      assert RowLinks(row, i, n, j) == prev + cell;
    }
  }

  /** Every non-zero cell of a row has its link. */
  lemma {:induction false} RowLinksComplete(row: seq<nat>, i: nat, n: nat, j: nat, c: nat)
    requires c < j <= |row| && row[c] > 0
    ensures Link(i, n + c, row[c]) in RowLinks(row, i, n, j)
  {
    var prev := RowLinks(row, i, n, j - 1);
    var cell := if row[j - 1] > 0 then [Link(i, n + j - 1, row[j - 1])] else [];
    assert RowLinks(row, i, n, j) == prev + cell;
    if c < j - 1 {
      RowLinksComplete(row, i, n, j - 1, c);
    } else {
      assert cell == [Link(i, n + c, row[c])];
    }
  }

  lemma SumPrefixStep(s: seq<nat>, j: nat)
    requires 0 < j <= |s|
    ensures Sum(s[..j]) == Sum(s[..j - 1]) + s[j - 1]
  {
    var one := [s[j - 1]];
    assert s[..j] == s[..j - 1] + one;
    SumAppend(s[..j - 1], one);
    assert one[1..] == [];
  }

  lemma RowLinksStep(row: seq<nat>, i: nat, n: nat, j: nat)
    requires 0 < j <= |row|
    ensures SumValues(RowLinks(row, i, n, j)) == SumValues(RowLinks(row, i, n, j - 1)) + row[j - 1]
  {
    var prev := RowLinks(row, i, n, j - 1);
    var cell := if row[j - 1] > 0 then [Link(i, n + j - 1, row[j - 1])] else [];
    assert RowLinks(row, i, n, j) == prev + cell;
    SumValuesAppend(prev, cell);
    assert SumValues(cell) == row[j - 1];
  }

  /** A row's link values add up to the row's partial sum. */
  lemma {:induction false} RowLinksSum(row: seq<nat>, i: nat, n: nat, j: nat)
    requires j <= |row|
    ensures SumValues(RowLinks(row, i, n, j)) == Sum(row[..j])
  {
    if j > 0 {
      RowLinksSum(row, i, n, j - 1);
      RowLinksStep(row, i, n, j);
      SumPrefixStep(row, j);
    } else {
      assert row[..j] == [];
    }
  }

  lemma {:induction false} MatrixTotalAppend(a: seq<seq<nat>>, b: seq<seq<nat>>)
    ensures MatrixTotal(a + b) == MatrixTotal(a) + MatrixTotal(b)
  {
    if a == [] {
      assert a + b == b;
    } else {
      assert (a + b)[1..] == a[1..] + b;
      MatrixTotalAppend(a[1..], b);
    }
  }

  /** A link of a square matrix with "after" nodes numbered from `|m|`,
      from one of its first `i` rows. */
  predicate LinkOk(l: Link, m: seq<seq<nat>>, i: nat)
    requires Square(m, |m|) && i <= |m|
  {
    l.source < i && |m| <= l.target < 2 * |m| && m[l.source][l.target - |m|] == l.value && l.value > 0
  }

  predicate LinksOk(ls: seq<Link>, m: seq<seq<nat>>, i: nat)
    requires Square(m, |m|) && i <= |m|
  {
    forall k :: 0 <= k < |ls| ==> LinkOk(ls[k], m, i)
  }

  lemma {:induction false} LinksUpToSound(m: seq<seq<nat>>, i: nat)
    requires Square(m, |m|) && i <= |m|
    ensures LinksOk(LinksUpTo(m, i), m, i)
  {
    if i > 0 {
      var n := |m|;
      LinksUpToSound(m, i - 1);
      RowLinksSound(m[i - 1], i - 1, n, n);
      var prev := LinksUpTo(m, i - 1);
      var row := RowLinks(m[i - 1], i - 1, n, n);
      forall k | 0 <= k < |prev + row| ensures LinkOk((prev + row)[k], m, i) {
        if k < |prev| {
          assert (prev + row)[k] == prev[k];
          assert LinkOk(prev[k], m, i - 1);
        } else {
          assert (prev + row)[k] == row[k - |prev|];
          assert RowLinkOk(row[k - |prev|], m[i - 1], i - 1, n, n);
        }
      }
    }
  }

  lemma {:induction false} LinksUpToOrdered(m: seq<seq<nat>>, i: nat)
    requires Square(m, |m|) && i <= |m|
    ensures RowMajor(LinksUpTo(m, i))
  {
    if i > 0 {
      var n := |m|;
      LinksUpToOrdered(m, i - 1);
      LinksUpToSound(m, i - 1);
      RowLinksOrdered(m[i - 1], i - 1, n, n);
      RowLinksSound(m[i - 1], i - 1, n, n);
      var prev := LinksUpTo(m, i - 1);
      var row := RowLinks(m[i - 1], i - 1, n, n);
      forall k, k' | 0 <= k < |prev| && 0 <= k' < |row| ensures Precedes(prev[k], row[k']) {
        assert LinkOk(prev[k], m, i - 1);
        assert RowLinkOk(row[k'], m[i - 1], i - 1, n, n);
      }
      RowMajorAppend(prev, row);
    }
  }

  lemma {:induction false} LinksUpToComplete(m: seq<seq<nat>>, i: nat, r: nat, c: nat)
    requires Square(m, |m|) && r < i <= |m| && c < |m| && m[r][c] > 0
    ensures Link(r, |m| + c, m[r][c]) in LinksUpTo(m, i)
  {
    var prev := LinksUpTo(m, i - 1);
    var row := RowLinks(m[i - 1], i - 1, |m|, |m|);
    assert LinksUpTo(m, i) == prev + row;
    if r < i - 1 {
      LinksUpToComplete(m, i - 1, r, c);
    } else {
      RowLinksComplete(m[i - 1], i - 1, |m|, |m|, c);
    }
  }

  lemma MatrixTotalPrefixStep(m: seq<seq<nat>>, i: nat)
    requires 0 < i <= |m|
    ensures MatrixTotal(m[..i]) == MatrixTotal(m[..i - 1]) + Sum(m[i - 1])
  {
    var one: seq<seq<nat>> := [m[i - 1]];
    assert m[..i] == m[..i - 1] + one;
    MatrixTotalAppend(m[..i - 1], one);
    assert one[1..] == [];
  }

  lemma LinksUpToStep(m: seq<seq<nat>>, i: nat)
    requires 0 < i <= |m|
    ensures SumValues(LinksUpTo(m, i)) == SumValues(LinksUpTo(m, i - 1)) + Sum(m[i - 1])
  {
    var last := m[i - 1];
    var row := RowLinks(last, i - 1, |m|, |last|);
    assert LinksUpTo(m, i) == LinksUpTo(m, i - 1) + row;
    RowLinksSum(last, i - 1, |m|, |last|);
    assert last[..|last|] == last;
    SumValuesAppend(LinksUpTo(m, i - 1), row);
  }

  lemma {:induction false} LinksUpToSum(m: seq<seq<nat>>, i: nat)
    requires i <= |m|
    ensures SumValues(LinksUpTo(m, i)) == MatrixTotal(m[..i])
  {
    if i > 0 {
      LinksUpToSum(m, i - 1);
      LinksUpToStep(m, i);
      MatrixTotalPrefixStep(m, i);
    } else {
      assert m[..i] == [];
    }
  }

  /** Every non-zero cell of `m` has its link in `ls`. */
  predicate CoversCells(ls: seq<Link>, m: seq<seq<nat>>)
    requires Square(m, |m|)
  {
    forall i, j :: 0 <= i < |m| && 0 <= j < |m| && m[i][j] > 0 ==> Link(i, |m| + j, m[i][j]) in ls
  }

  /** The link lists describe the matrix exactly: every link goes from a
      "before" node in [0, n) to an "after" node in [n, 2n) and carries the
      non-zero count of its cell; every non-zero cell has a link; links come
      in row-major order, hence at most one per cell; and their values add
      up to the matrix total. */
  lemma LinksDescribeMatrix(m: seq<seq<nat>>)
    requires Square(m, |m|)
    ensures LinksOk(Links(m), m, |m|)
    ensures CoversCells(Links(m), m)
    ensures RowMajor(Links(m))
    ensures SumValues(Links(m)) == MatrixTotal(m)
  {
    LinksUpToSound(m, |m|);
    forall i, j | 0 <= i < |m| && 0 <= j < |m| && m[i][j] > 0 ensures Link(i, |m| + j, m[i][j]) in Links(m) {
      LinksUpToComplete(m, |m|, i, j);
    }
    LinksUpToOrdered(m, |m|);
    LinksUpToSum(m, |m|);
    assert m[..|m|] == m;
  }

  // ---------------------------------------------------------------------
  // The link loops

  /** The three parallel lists read as links. */
  function AsLinks(src: seq<nat>, tgt: seq<nat>, val: seq<nat>): seq<Link>
    requires |src| == |tgt| == |val|
  {
    seq(|src|, k requires 0 <= k < |src| => Link(src[k], tgt[k], val[k]))
  }

  lemma {:induction false} SumValuesAsLinks(src: seq<nat>, tgt: seq<nat>, val: seq<nat>)
    requires |src| == |tgt| == |val|
    ensures SumValues(AsLinks(src, tgt, val)) == Sum(val)
  {
    if src != [] {
      SumValuesAsLinks(src[1..], tgt[1..], val[1..]);
      assert AsLinks(src, tgt, val)[1..] == AsLinks(src[1..], tgt[1..], val[1..]);
    }
  }

  lemma AsLinksSnoc(src: seq<nat>, tgt: seq<nat>, val: seq<nat>, x: nat, y: nat, z: nat)
    requires |src| == |tgt| == |val|
    ensures AsLinks(src + [x], tgt + [y], val + [z]) == AsLinks(src, tgt, val) + [Link(x, y, z)]
  {
    var l, r := AsLinks(src + [x], tgt + [y], val + [z]), AsLinks(src, tgt, val) + [Link(x, y, z)];
    forall k | 0 <= k < |l| ensures l[k] == r[k] {
      if k < |src| {
        assert (src + [x])[k] == src[k] && (tgt + [y])[k] == tgt[k] && (val + [z])[k] == val[k];
      }
    }
  }

  /** The nested `for` loops over the scale: for every cell of `trans` in
      row-major order, a non-zero count `v` at (i_b, i_a) appends `i_b` to
      `src`, `n + i_a` to `tgt` and `v` to `val`. Read as links, the lists
      are `Links(trans)`: each link goes from a node in [0, n) to a node in
      [n, 2n) and carries its cell's non-zero count, every non-zero cell
      has its link, the links are in row-major order, and the values add
      up to the matrix total. */
  method SankeyLinks(scale: seq<string>, trans: seq<seq<nat>>) returns (src: seq<nat>, tgt: seq<nat>, val: seq<nat>)
    requires Square(trans, |scale|)
    ensures |src| == |tgt| == |val|
    ensures AsLinks(src, tgt, val) == Links(trans)
    ensures LinksOk(AsLinks(src, tgt, val), trans, |scale|)
    ensures CoversCells(AsLinks(src, tgt, val), trans)
    ensures RowMajor(AsLinks(src, tgt, val))
    ensures Sum(val) == MatrixTotal(trans)
  {
    var n := |scale|;
    src, tgt, val := [], [], [];
    var ib := 0;
    while ib < n
      invariant 0 <= ib <= n
      invariant |src| == |tgt| == |val|
      invariant AsLinks(src, tgt, val) == LinksUpTo(trans, ib)
    {
      var ia := 0;
      while ia < n
        invariant 0 <= ia <= n
        invariant |src| == |tgt| == |val|
        invariant AsLinks(src, tgt, val) == LinksUpTo(trans, ib) + RowLinks(trans[ib], ib, n, ia)
      {
        var v := trans[ib][ia];
        if v > 0 {
          AsLinksSnoc(src, tgt, val, ib, n + ia, v);
          src, tgt, val := src + [ib], tgt + [n + ia], val + [v];
        }
        ia := ia + 1;
      }
      assert LinksUpTo(trans, ib + 1) == LinksUpTo(trans, ib) + RowLinks(trans[ib], ib, n, n);
      ib := ib + 1;
    }
    LinksDescribeMatrix(trans);
    SumValuesAsLinks(src, tgt, val);
  }

  /** Entry `k` of the lists produced by `SankeyLinks`, spelled out. */
  lemma LinkListEntry(trans: seq<seq<nat>>, src: seq<nat>, tgt: seq<nat>, val: seq<nat>, k: nat)
    requires Square(trans, |trans|) && |src| == |tgt| == |val|
    requires LinksOk(AsLinks(src, tgt, val), trans, |trans|)
    requires k < |src|
    ensures src[k] < |trans| && |trans| <= tgt[k] < 2 * |trans|
    ensures val[k] == trans[src[k]][tgt[k] - |trans|] && val[k] > 0
  {
    assert AsLinks(src, tgt, val)[k] == Link(src[k], tgt[k], val[k]);
    assert LinkOk(AsLinks(src, tgt, val)[k], trans, |trans|);
  }

  // ---------------------------------------------------------------------
  // Node labels

  function Prefixed(prefix: string, scale: seq<string>): (r: seq<string>)
    ensures |r| == |scale| && forall i :: 0 <= i < |scale| ==> r[i] == prefix + scale[i]
  {
    if scale == [] then [] else [prefix + scale[0]] + Prefixed(prefix, scale[1..])
  }

  /** `before_nodes + after_nodes`: node i < n is "Before: " + scale[i] and
      node n + i is "After: " + scale[i], matching the link numbering. */
  function NodeLabels(scale: seq<string>): (r: seq<string>)
    ensures |r| == 2 * |scale|
    ensures forall i :: 0 <= i < |scale| ==> r[i] == "Before: " + scale[i] && r[|scale| + i] == "After: " + scale[i]
  {
    Prefixed("Before: ", scale) + Prefixed("After: ", scale)
  }

  // ---------------------------------------------------------------------
  // The pipeline

  /** The three Sankey functions. */
  datatype Variant = FivePoint | ThreeBin | ThreeBinOrdered

  /** The scale each function indexes its matrix, labels and loops by; the
      "ordered" one uses `ThreeBins`, not `ThreeBinsOrdered`. */
  function ScaleOf(v: Variant): seq<string> {
    if v == FivePoint then Likert5 else ThreeBins
  }

  /** The cleaning each function applies to both columns. */
  function CleanFor(v: Variant, s: Series): Series {
    if v == FivePoint then CleanLikert(s) else ToThreeBins(s)
  }

  lemma CleanForOnScale(v: Variant, s: Series)
    ensures forall k :: 0 <= k < |CleanFor(v, s)| ==> CleanFor(v, s)[k].value in ScaleOf(v)
  {
    if v == FivePoint {
      CleanToScaleSelects(s, Likert5, "");
    } else {
      ToThreeBinsIsCollapsedClean(s);
    }
  }

  /** The pairs counted into the matrix. */
  function VariantPairs(v: Variant, before: Series, after: Series): seq<Pair> {
    PairResponses(CleanFor(v, before), CleanFor(v, after))
  }

  /** The pairs of one Sankey function lie on its scale, whose labels are
      distinct, and there are as many as the shorter cleaned column has
      entries. */
  lemma VariantPairsFacts(v: Variant, before: Series, after: Series)
    ensures Distinct(ScaleOf(v))
    ensures OnScale(VariantPairs(v, before, after), ScaleOf(v))
    ensures |VariantPairs(v, before, after)|
            == if |CleanFor(v, before)| <= |CleanFor(v, after)| then |CleanFor(v, before)| else |CleanFor(v, after)|
  {
    var b, a := CleanFor(v, before), CleanFor(v, after);
    ScalesAreDistinct();
    CleanForOnScale(v, before);
    CleanForOnScale(v, after);
    PairingIsPositional(b, a);
  }

  /** Cell (i, j) of `m` holds the number of pairs (scale[i], scale[j]). */
  predicate CountsPairs(m: seq<seq<nat>>, pairs: seq<Pair>, scale: seq<string>) {
    Square(m, |scale|)
    && forall i, j :: 0 <= i < |scale| && 0 <= j < |scale| ==> m[i][j] == Occurrences(pairs, (scale[i], scale[j]))
  }

  /** Link `l` joins "Before: b" to "After: a" and carries the (non-zero)
      number of pairs (b, a). */
  predicate LinkCounts(l: Link, pairs: seq<Pair>, scale: seq<string>) {
    var n := |scale|;
    l.source < n && n <= l.target < 2 * n
    && l.value == Occurrences(pairs, (scale[l.source], scale[l.target - n])) && l.value > 0
  }

  lemma LinksCountPairs(m: seq<seq<nat>>, pairs: seq<Pair>, scale: seq<string>, ls: seq<Link>)
    requires CountsPairs(m, pairs, scale) && LinksOk(ls, m, |m|)
    ensures forall k :: 0 <= k < |ls| ==> LinkCounts(ls[k], pairs, scale)
  {
    forall k | 0 <= k < |ls| ensures LinkCounts(ls[k], pairs, scale) {
      assert LinkOk(ls[k], m, |m|);
    }
  }

  lemma PairsHaveLinks(m: seq<seq<nat>>, pairs: seq<Pair>, scale: seq<string>, ls: seq<Link>)
    requires CountsPairs(m, pairs, scale)
    requires CoversCells(ls, m)
    ensures forall i, j :: 0 <= i < |scale| && 0 <= j < |scale| && (scale[i], scale[j]) in pairs ==>
              Link(i, |scale| + j, Occurrences(pairs, (scale[i], scale[j]))) in ls
  {
    forall i, j | 0 <= i < |scale| && 0 <= j < |scale| && (scale[i], scale[j]) in pairs
      ensures Link(i, |scale| + j, Occurrences(pairs, (scale[i], scale[j]))) in ls
    {
      OccurrencesPositive(pairs, (scale[i], scale[j]));
    }
  }

  /** The diagram of any list of pairs on a scale of distinct labels: each
      link joins "Before: b" to "After: a" and carries the number of pairs
      (b, a), every combination that occurs has its link, and the link
      values add up to the number of pairs. */
  lemma DiagramDescribesPairs(pairs: seq<Pair>, scale: seq<string>)
    requires Distinct(scale) && OnScale(pairs, scale)
    ensures forall k :: 0 <= k < |Links(TransitionMatrix(pairs, scale))| ==>
              LinkCounts(Links(TransitionMatrix(pairs, scale))[k], pairs, scale)
    ensures forall i, j :: 0 <= i < |scale| && 0 <= j < |scale| && (scale[i], scale[j]) in pairs ==>
              Link(i, |scale| + j, Occurrences(pairs, (scale[i], scale[j]))) in Links(TransitionMatrix(pairs, scale))
    ensures SumValues(Links(TransitionMatrix(pairs, scale))) == |pairs|
  {
    var m := TransitionMatrix(pairs, scale);
    TransitionCounts(pairs, scale);
    assert CountsPairs(m, pairs, scale);
    LinksDescribeMatrix(m);
    LinksCountPairs(m, pairs, scale, Links(m));
    PairsHaveLinks(m, pairs, scale, Links(m));
    MatrixTotalIsPairCount(pairs, scale);
  }

  /** From two raw columns to the diagram of one Sankey function: the facts
      of `DiagramDescribesPairs` hold for its pairs, and their number is the
      length of the shorter cleaned column. */
  lemma SankeyDescribesPairs(v: Variant, before: Series, after: Series)
    ensures var scale, pairs := ScaleOf(v), VariantPairs(v, before, after);
            var ls := Links(TransitionMatrix(pairs, scale));
            && (forall k :: 0 <= k < |ls| ==> LinkCounts(ls[k], pairs, scale))
            && (forall i, j :: 0 <= i < |scale| && 0 <= j < |scale| && (scale[i], scale[j]) in pairs ==>
                  Link(i, |scale| + j, Occurrences(pairs, (scale[i], scale[j]))) in ls)
            && SumValues(ls) == |pairs|
            && |pairs| == if |CleanFor(v, before)| <= |CleanFor(v, after)| then |CleanFor(v, before)| else |CleanFor(v, after)|
  {
    VariantPairsFacts(v, before, after);
    DiagramDescribesPairs(VariantPairs(v, before, after), ScaleOf(v));
  }

  /** The "ordered" 3-bin function computes exactly what the 3-bin one
      does: same scale, same pairs, hence the same matrix, labels and links. */
  lemma OrderedVariantIsThreeBin(before: Series, after: Series)
    ensures ScaleOf(ThreeBinOrdered) == ScaleOf(ThreeBin) != ThreeBinsOrdered
    ensures VariantPairs(ThreeBinOrdered, before, after) == VariantPairs(ThreeBin, before, after)
  {
  }

  /** A spreadsheet as its columns, each the column's cells (as strings)
      in row order; the frame has the default RangeIndex. */
  type Frame = seq<seq<string>>

  datatype Error = IndexOutOfBounds(position: int)

  datatype Result<T> = Ok(value: T) | Err(error: Error)

  /** `frame.iloc[:, position]`: negative positions count from the last
      column, and a position outside the frame raises IndexError. */
  function ILocColumn(frame: Frame, position: int): (r: Result<Series>)
    ensures r.Ok? <==> -|frame| <= position < |frame|
    ensures r.Err? ==> r.error == IndexOutOfBounds(position)
    ensures r.Ok? ==> r.value == Indexed(frame[if position >= 0 then position else |frame| + position], 0)
  {
    if 0 <= position < |frame| then Ok(Indexed(frame[position], 0))
    else if -|frame| <= position < 0 then Ok(Indexed(frame[|frame| + position], 0))
    else Err(IndexOutOfBounds(position))
  }

  /** The data a Sankey function computes and hands to CSV export and to
      the figure. */
  datatype SankeyData = SankeyData(
    transition: seq<seq<nat>>,
    labels: seq<string>,
    src: seq<nat>,
    tgt: seq<nat>,
    val: seq<nat>)

  /** One Sankey function without its file output: read the two columns,
      clean, pair, count, label and walk out the links. */
  method MakeTrustSankey(v: Variant, p1: Frame, p2: Frame, beforeCol: int, afterCol: int)
    returns (r: Result<SankeyData>)
    ensures r.Err? <==> ILocColumn(p1, beforeCol).Err? || ILocColumn(p2, afterCol).Err?
    ensures r.Err? ==> r.error == IndexOutOfBounds(if ILocColumn(p1, beforeCol).Err? then beforeCol else afterCol)
    ensures r.Ok? ==>
              var scale := ScaleOf(v);
              var pairs := VariantPairs(v, ILocColumn(p1, beforeCol).value, ILocColumn(p2, afterCol).value);
              var d := r.value;
              && d.transition == TransitionMatrix(pairs, scale)
              && d.labels == NodeLabels(scale)
              && |d.src| == |d.tgt| == |d.val|
              && AsLinks(d.src, d.tgt, d.val) == Links(d.transition)
              && Sum(d.val) == |pairs|
  {
    var before := ILocColumn(p1, beforeCol);
    if before.Err? {
      return Err(before.error);
    }
    var after := ILocColumn(p2, afterCol);
    if after.Err? {
      return Err(after.error);
    }
    var scale := ScaleOf(v);
    var pairs := VariantPairs(v, before.value, after.value);
    var trans := TransitionMatrix(pairs, scale);
    TransitionCounts(pairs, scale);
    var labels := NodeLabels(scale);
    var src, tgt, val := SankeyLinks(scale, trans);
    SankeyDescribesPairs(v, before.value, after.value);
    LinksDescribeMatrix(trans);
    SumValuesAsLinks(src, tgt, val);
    r := Ok(SankeyData(trans, labels, src, tgt, val));
  }
}
