/** The response "binner" of the Sankey script: Likert scales, Python's
    `str.strip()`, a pandas Series of string cells with its index labels, and
    the two cleaning pipelines `_clean_likert` and `_to_three_bins`. */
module Likert {
  import opened Counting

  /** The 5-point scale `LIKERT5`, in axis order. */
  const Likert5: seq<string> := ["Strongly disagree", "Disagree", "Neutral", "Agree", "Strongly agree"]

  /** The collapsed scale `THREE_BINS`, in axis order. */
  const ThreeBins: seq<string> := ["Disagree", "Neutral", "Agree"]

  /** `THREE_BINS_ORDERED`, declared next to the "ordered" 3-bin Sankey but
      not used by it (that function indexes everything by `ThreeBins`). */
  const ThreeBinsOrdered: seq<string> := ["Agree", "Neutral", "Disagree"]

  lemma ScalesAreDistinct()
    ensures Distinct(Likert5) && Distinct(ThreeBins) && Distinct(ThreeBinsOrdered)
  {
    assert "Strongly disagree"[0] != "Disagree"[0] && "Disagree"[0] != "Neutral"[0];
  }

  // ---------------------------------------------------------------------
  // Python's str.strip() with no argument

  /** Python's `str.isspace()` for one character: the C0 separators
      U+0009..U+000D and U+001C..U+001F, the space, U+0085, U+00A0, U+1680,
      U+2000..U+200A, U+2028, U+2029, U+202F, U+205F and U+3000. */
  predicate IsSpace(c: char) {
    var k := c as int;
    (0x09 <= k <= 0x0D) || (0x1C <= k <= 0x20) || k == 0x85 || k == 0xA0 || k == 0x1680
    || (0x2000 <= k <= 0x200A) || k == 0x2028 || k == 0x2029 || k == 0x202F
    || k == 0x205F || k == 0x3000
  }

  predicate AllSpace(s: string) {
    forall k :: 0 <= k < |s| ==> IsSpace(s[k])
  }

  /** Neither end of `s` is whitespace. */
  predicate Trimmed(s: string) {
    s == [] || (!IsSpace(s[0]) && !IsSpace(s[|s| - 1]))
  }

  /** How many whitespace characters `s` starts with. */
  function LeadingSpaces(s: string): (n: nat)
    ensures n <= |s|
    ensures forall k :: 0 <= k < n ==> IsSpace(s[k])
    ensures n < |s| ==> !IsSpace(s[n])
  {
    if s != [] && IsSpace(s[0]) then 1 + LeadingSpaces(s[1..]) else 0
  }

  /** How many whitespace characters `s` ends with. */
  function TrailingSpaces(s: string): (n: nat)
    ensures n <= |s|
    ensures forall k :: |s| - n <= k < |s| ==> IsSpace(s[k])
    ensures n < |s| ==> !IsSpace(s[|s| - n - 1])
  {
    if s != [] && IsSpace(s[|s| - 1]) then 1 + TrailingSpaces(s[..|s| - 1]) else 0
  }

  /** `str.lstrip()`: `s` without its leading whitespace. */
  function StripLeft(s: string): string {
    s[LeadingSpaces(s)..]
  }

  /** `str.rstrip()`: `s` without its trailing whitespace. */
  function StripRight(s: string): string {
    s[..|s| - TrailingSpaces(s)]
  }

  /** `str.strip()`: `s` without its leading and trailing whitespace. */
  function Strip(s: string): (r: string)
    ensures Trimmed(r)
    ensures r == [] <==> AllSpace(s)
    ensures |r| <= |s|
  {
    var t := StripLeft(s);
    var r := StripRight(t);
    assert r != [] ==> r[0] == t[0] == s[LeadingSpaces(s)];
    assert r != [] ==> r[|r| - 1] == t[|t| - TrailingSpaces(t) - 1];
    assert AllSpace(s) ==> LeadingSpaces(s) == |s|;
    r
  }

  /** Whitespace in front of a string that does not start with whitespace
      is exactly the leading whitespace. */
  lemma LeadingSpacesPadded(p: string, t: string)
    requires AllSpace(p) && (t == [] || !IsSpace(t[0]))
    ensures LeadingSpaces(p + t) == |p|
  {
    assert forall k :: 0 <= k < |p| ==> (p + t)[k] == p[k];
    assert |p| < |p + t| ==> (p + t)[|p|] == t[0];
  }

  lemma TrailingSpacesPadded(t: string, q: string)
    requires AllSpace(q) && (t == [] || !IsSpace(t[|t| - 1]))
    ensures TrailingSpaces(t + q) == |q|
  {
    var u := t + q;
    assert forall k :: |t| <= k < |u| ==> u[k] == q[k - |t|];
    assert |t| > 0 ==> u[|t| - 1] == t[|t| - 1];
  }

  /** `strip` removes exactly the surrounding whitespace: a trimmed string
      padded on both sides with whitespace strips back to itself. */
  lemma StripPadded(p: string, t: string, q: string)
    requires AllSpace(p) && AllSpace(q) && Trimmed(t)
    ensures Strip(p + t + q) == t
  {
    if t == [] {
      assert p + t + q == p + q;
      assert AllSpace(p + q) by {
        forall k | 0 <= k < |p + q| ensures IsSpace((p + q)[k]) {
          if k < |p| { assert (p + q)[k] == p[k]; } else { assert (p + q)[k] == q[k - |p|]; }
        }
      }
    } else {
      assert p + t + q == p + (t + q);
      LeadingSpacesPadded(p, t + q);
      assert StripLeft(p + t + q) == t + q;
      TrailingSpacesPadded(t, q);
      assert (t + q)[..|t + q| - |q|] == t;
    }
  }

  /** A string with no whitespace at either end strips to itself. */
  lemma StripTrimmed(v: string)
    requires Trimmed(v)
    ensures Strip(v) == v
  {
    assert LeadingSpaces(v) == 0;
    assert TrailingSpaces(v) == 0;
  }

  /** Stripping twice is stripping once. */
  lemma StripIdempotent(s: string)
    ensures Strip(Strip(s)) == Strip(s)
  {
    StripTrimmed(Strip(s));
  }

  // ---------------------------------------------------------------------
  // A pandas Series of string cells

  /** One cell of a Series: its index label and its value as a string
      (`astype(str)` has already been applied, so a missing value is "nan"). */
  datatype Entry = Entry(index: nat, value: string)

  type Series = seq<Entry>

  function Values(s: Series): (r: seq<string>)
    ensures |r| == |s|
    ensures forall k :: 0 <= k < |s| ==> r[k] == s[k].value
  {
    if s == [] then [] else [s[0].value] + Values(s[1..])
  }

  /** `a` can be obtained from `b` by deleting elements. */
  predicate SubsequenceOf<T(==)>(a: seq<T>, b: seq<T>)
    decreases |b|
  {
    if a == [] then true
    else if b == [] then false
    else (a[0] == b[0] && SubsequenceOf(a[1..], b[1..])) || SubsequenceOf(a, b[1..])
  }

  /** `s.astype(str).str.strip()`: every value stripped, labels kept. */
  function StripAll(s: Series): Series {
    seq(|s|, k requires 0 <= k < |s| => Entry(s[k].index, Strip(s[k].value)))
  }

  /** `s.where(s.isin(scale)).dropna()`: the entries whose value is one of the
      labels, in their original order and with their original index labels. */
  function KeepIn(s: Series, scale: seq<string>): (r: Series)
    ensures |r| <= |s|
    ensures forall k :: 0 <= k < |r| ==> r[k].value in scale
  {
    if s == [] then []
    else (if s[0].value in scale then [s[0]] else []) + KeepIn(s[1..], scale)
  }

  /** The entries kept are a subsequence of the input. */
  lemma {:induction false} KeepInIsSubsequence(s: Series, scale: seq<string>)
    ensures SubsequenceOf(KeepIn(s, scale), s)
  {
    if s != [] {
      KeepInIsSubsequence(s[1..], scale);
      var rest := KeepIn(s[1..], scale);
      if s[0].value in scale {
        assert KeepIn(s, scale) == [s[0]] + rest;
        assert ([s[0]] + rest)[1..] == rest;
      } else {
        assert KeepIn(s, scale) == rest;
        SubsequenceDropFront(rest, s);
      }
    }
  }

  lemma SubsequenceDropFront<T>(a: seq<T>, b: seq<T>)
    requires b != [] && SubsequenceOf(a, b[1..])
    ensures SubsequenceOf(a, b)
  {
  }

  /** Nothing on the scale is lost and nothing else survives: each label
      keeps every one of its occurrences, every other value has none. */
  lemma {:induction false} KeepInCounts(s: Series, scale: seq<string>, x: string)
    ensures Occurrences(Values(KeepIn(s, scale)), x)
            == if x in scale then Occurrences(Values(s), x) else 0
  {
    if s != [] {
      KeepInCounts(s[1..], scale, x);
      var head := if s[0].value in scale then [s[0]] else [];
      assert KeepIn(s, scale) == head + KeepIn(s[1..], scale);
      ValuesAppend(head, KeepIn(s[1..], scale));
      OccurrencesAppend(Values(head), Values(KeepIn(s[1..], scale)), x);
      assert Values(s)[1..] == Values(s[1..]);
    }
  }

  lemma ValuesAppend(s: Series, t: Series)
    ensures Values(s + t) == Values(s) + Values(t)
  {
    assert |Values(s + t)| == |Values(s) + Values(t)|;
    forall k | 0 <= k < |s + t| ensures Values(s + t)[k] == (Values(s) + Values(t))[k] {
      if k < |s| { assert (s + t)[k] == s[k]; } else { assert (s + t)[k] == t[k - |s|]; }
    }
  }

  /** Filtering input that is already on the scale changes nothing. */
  lemma {:induction false} KeepInOnScale(s: Series, scale: seq<string>)
    requires forall k :: 0 <= k < |s| ==> s[k].value in scale
    ensures KeepIn(s, scale) == s
  {
    if s != [] {
      KeepInOnScale(s[1..], scale);
      assert [s[0]] + s[1..] == s;
    }
  }

  /** Stripping values that are already trimmed changes nothing. */
  lemma StripAllTrimmed(s: Series)
    requires forall k :: 0 <= k < |s| ==> Trimmed(s[k].value)
    ensures StripAll(s) == s
  {
    forall k | 0 <= k < |s| ensures StripAll(s)[k] == s[k] {
      StripTrimmed(s[k].value);
    }
  }

  /** No scale label has whitespace at either end. */
  lemma LabelTrimmed(x: string)
    requires x in Likert5 || x in ThreeBins
    ensures Trimmed(x)
  {
  }

  // ---------------------------------------------------------------------
  // _clean_likert and _to_three_bins

  /** `_clean_likert` generalised to any scale: strip every cell and keep
      the ones that equal a label exactly. */
  function CleanToScale(s: Series, scale: seq<string>): Series {
    KeepIn(StripAll(s), scale)
  }

  /** `_clean_likert`. */
  function CleanLikert(s: Series): Series {
    CleanToScale(s, Likert5)
  }

  /** The cleaned series is the order-preserving selection of the stripped
      cells that exactly equal a label: a subsequence of the stripped input,
      with every occurrence of each label kept and nothing else. */
  lemma CleanToScaleSelects(s: Series, scale: seq<string>, x: string)
    ensures forall k :: 0 <= k < |CleanToScale(s, scale)| ==> CleanToScale(s, scale)[k].value in scale
    ensures SubsequenceOf(CleanToScale(s, scale), StripAll(s))
    ensures Occurrences(Values(CleanToScale(s, scale)), x)
            == if x in scale then Occurrences(Values(StripAll(s)), x) else 0
  {
    KeepInIsSubsequence(StripAll(s), scale);
    KeepInCounts(StripAll(s), scale, x);
  }

  /** Cleaning an already-cleaned series changes nothing. */
  lemma CleanLikertIdempotent(s: Series)
    ensures CleanLikert(CleanLikert(s)) == CleanLikert(s)
  {
    var r := CleanLikert(s);
    forall k | 0 <= k < |r| ensures Trimmed(r[k].value) {
      LabelTrimmed(r[k].value);
    }
    StripAllTrimmed(r);
    KeepInOnScale(r, Likert5);
  }

  /** The dictionary passed to `replace` in `_to_three_bins`; any other
      value is left as it is. */
  function Replace(v: string): (r: string)
    ensures r == "Disagree" <==> v == "Strongly disagree" || v == "Disagree"
    ensures r == "Neutral" <==> v == "Neutral"
    ensures r == "Agree" <==> v == "Agree" || v == "Strongly agree"
    ensures r in ThreeBins <==> v in Likert5
  {
    if v == "Strongly disagree" then "Disagree"
    else if v == "Disagree" then "Disagree"
    else if v == "Neutral" then "Neutral"
    else if v == "Agree" then "Agree"
    else if v == "Strongly agree" then "Agree"
    else v
  }

  function ReplaceAll(s: Series): (r: Series)
    ensures |r| == |s|
    ensures forall k :: 0 <= k < |s| ==> r[k] == Entry(s[k].index, Replace(s[k].value))
  {
    if s == [] then [] else [Entry(s[0].index, Replace(s[0].value))] + ReplaceAll(s[1..])
  }

  /** `_to_three_bins`: strip, merge each "strong" answer into its
      neighbour, and keep only the values that are in `ThreeBins`. */
  function ToThreeBins(s: Series): Series {
    KeepIn(ReplaceAll(StripAll(s)), ThreeBins)
  }

  /** Filtering commutes with the merge: a replaced value lands in
      `ThreeBins` exactly when the original was on the 5-point scale. */
  lemma {:induction false} KeepInReplaceAll(t: Series)
    ensures KeepIn(ReplaceAll(t), ThreeBins) == ReplaceAll(KeepIn(t, Likert5))
  {
    if t != [] {
      KeepInReplaceAll(t[1..]);
      assert ReplaceAll(t)[1..] == ReplaceAll(t[1..]);
      var head := if t[0].value in Likert5 then [t[0]] else [];
      assert KeepIn(t, Likert5) == head + KeepIn(t[1..], Likert5);
      ReplaceAllAppend(head, KeepIn(t[1..], Likert5));
    }
  }

  lemma ReplaceAllAppend(s: Series, t: Series)
    ensures ReplaceAll(s + t) == ReplaceAll(s) + ReplaceAll(t)
  {
    assert |ReplaceAll(s + t)| == |ReplaceAll(s) + ReplaceAll(t)|;
    forall k | 0 <= k < |s + t| ensures ReplaceAll(s + t)[k] == (ReplaceAll(s) + ReplaceAll(t))[k] {
      if k < |s| { assert (s + t)[k] == s[k]; } else { assert (s + t)[k] == t[k - |s|]; }
    }
  }

  /** The 3-bin path is the 5-point cleaning followed by the merge: every
      cell that survives is a cleaned Likert answer, renamed to its bin. */
  lemma ToThreeBinsIsCollapsedClean(s: Series)
    ensures ToThreeBins(s) == ReplaceAll(CleanLikert(s))
    ensures forall k :: 0 <= k < |ToThreeBins(s)| ==> ToThreeBins(s)[k].value in ThreeBins
  {
    KeepInReplaceAll(StripAll(s));
  }

  /** `_to_three_bins` is idempotent: each bin label strips to itself,
      maps to itself and is kept. */
  lemma ToThreeBinsIdempotent(s: Series)
    ensures ToThreeBins(ToThreeBins(s)) == ToThreeBins(s)
  {
    var r := ToThreeBins(s);
    forall k | 0 <= k < |r| ensures Trimmed(r[k].value) {
      LabelTrimmed(r[k].value);
    }
    StripAllTrimmed(r);
    ReplaceAllOnBins(r);
    KeepInOnScale(r, ThreeBins);
  }

  lemma {:induction false} ReplaceAllOnBins(s: Series)
    requires forall k :: 0 <= k < |s| ==> s[k].value in ThreeBins
    ensures ReplaceAll(s) == s
  {
    if s != [] {
      ReplaceAllOnBins(s[1..]);
      assert s == [s[0]] + s[1..];
    }
  }

  /** Matching is exact and case-sensitive: among stripped cells, a
      lower-case variant, a different capitalisation and an unknown word are
      all dropped, with no spelling correction. */
  lemma StrictMatchExample()
    ensures KeepIn([Entry(0, "Agree"), Entry(1, "disagree"), Entry(2, "Strongly Agree"), Entry(3, "xyz")], Likert5)
            == [Entry(0, "Agree")]
  {
    var stripped := [Entry(0, "Agree"), Entry(1, "disagree"), Entry(2, "Strongly Agree"), Entry(3, "xyz")];
    assert "disagree" !in Likert5 by { assert "disagree"[0] == 'd'; }
    assert "Strongly Agree" !in Likert5 by { assert "Strongly Agree"[9] == 'A'; }
    assert "xyz" !in Likert5 by { assert "xyz"[0] == 'x'; }
    assert KeepIn(stripped[3..], Likert5) == [];
    assert KeepIn(stripped[2..], Likert5) == [] by { assert stripped[2..][1..] == stripped[3..]; }
    assert KeepIn(stripped[1..], Likert5) == [] by { assert stripped[1..][1..] == stripped[2..]; }
  }

  /** A cell with a leading blank is stripped before it is matched. */
  lemma StripExample()
    ensures Strip(" disagree") == "disagree"
  {
    var v := " disagree";
    assert v[1..] == "disagree";
    StripLeadingSpace(v);
  }

  /** The three example answers other than " disagree" have no whitespace
      at either end, so stripping leaves them alone. */
  lemma StripExampleTrimmed(v: string)
    requires v == "Agree" || v == "Strongly Agree" || v == "xyz"
    ensures Strip(v) == v
  {
    assert !IsSpace(v[0]) && !IsSpace(v[|v| - 1]);
    StripTrimmed(v);
  }

  /** `.str.strip()` on the example answers removes only the blank in front
      of " disagree". */
  lemma StripAllExample()
    ensures StripAll([Entry(0, "Agree"), Entry(1, " disagree"), Entry(2, "Strongly Agree"), Entry(3, "xyz")])
            == [Entry(0, "Agree"), Entry(1, "disagree"), Entry(2, "Strongly Agree"), Entry(3, "xyz")]
  {
    var raw := [Entry(0, "Agree"), Entry(1, " disagree"), Entry(2, "Strongly Agree"), Entry(3, "xyz")];
    var stripped := [Entry(0, "Agree"), Entry(1, "disagree"), Entry(2, "Strongly Agree"), Entry(3, "xyz")];
    forall k | 0 <= k < 4 ensures StripAll(raw)[k] == stripped[k] {
      if k == 1 {
        StripExample();
      } else {
        StripExampleTrimmed(raw[k].value);
      }
    }
  }

  /** `_clean_likert` on the example answers "Agree", " disagree",
      "Strongly Agree" and "xyz": the blank is stripped, and then only the
      exact label "Agree" survives. */
  lemma CleanLikertExample()
    ensures CleanLikert([Entry(0, "Agree"), Entry(1, " disagree"), Entry(2, "Strongly Agree"), Entry(3, "xyz")])
            == [Entry(0, "Agree")]
  {
    StripAllExample();
    StrictMatchExample();
  }

  /** One leading whitespace character in front of a trimmed string is
      removed and nothing else. */
  lemma StripLeadingSpace(v: string)
    requires |v| > 0 && IsSpace(v[0]) && Trimmed(v[1..])
    ensures Strip(v) == v[1..]
  {
    assert v == [v[0]] + v[1..] + [];
    StripPadded([v[0]], v[1..], []);
  }
}
