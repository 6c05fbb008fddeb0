/**
 * Ranking of the zero-shot classifier's answer: pair each label with its
 * score, sort the pairs by descending score keeping the original order of
 * equal scores, and keep the pairs above the threshold under their
 * application labels.
 */
module Ranking {
  import opened LabelMapping

  /** One `{label, score}` entry. */
  datatype Prediction = Prediction(lab: string, score: real)

  /** Entries must score strictly above this to be reported. */
  const Threshold: real := 0.4

  /** `labels[i]` paired with `scores[i]`, for every index of `labels`. */
  function Zip(labels: seq<string>, scores: seq<real>): (r: seq<Prediction>)
    requires |labels| <= |scores|
  {
    seq(|labels|, i requires 0 <= i < |labels| => Prediction(labels[i], scores[i]))
  }

  /** Scores never increase along `s`. */
  predicate SortedDesc(s: seq<Prediction>) {
    forall i, j :: 0 <= i < j < |s| ==> s[i].score >= s[j].score
  }

  /** The entries of `s` that score exactly `v`, in their order in `s`. */
  function WithScore(s: seq<Prediction>, v: real): seq<Prediction> {
    if s == [] then [] else Single(s[0], v) + WithScore(s[1..], v)
  }

  /** `p` alone if it scores `v`, nothing otherwise. */
  function Single(p: Prediction, v: real): seq<Prediction> {
    if p.score == v then [p] else []
  }

  // ---------------------------------------------------------------------
  // The stable sort
  // ---------------------------------------------------------------------

  /** Puts `x` before the first entry of `s` that does not score more than `x`. */
  function InsertByScore(x: Prediction, s: seq<Prediction>): seq<Prediction> {
    if s == [] || x.score >= s[0].score then [x] + s else [s[0]] + InsertByScore(x, s[1..])
  }

  /**
   * A stable sort by descending score: sorted, a permutation, and for every
   * score the entries with that score keep their relative order.
   */
  function SortByScore(s: seq<Prediction>): (r: seq<Prediction>)
    ensures SortedDesc(r)
    ensures multiset(r) == multiset(s)
    ensures forall v :: WithScore(r, v) == WithScore(s, v)
  {
    if s == [] then []
    else
      var rest := SortByScore(s[1..]);
      InsertSorted(s[0], rest);
      InsertPermutes(s[0], rest);
      assert s == [s[0]] + s[1..];
      forall v ensures WithScore(InsertByScore(s[0], rest), v) == WithScore(s, v) {
        InsertStable(s[0], rest, v);
        WithScoreCons(s[0], rest, v);
        WithScoreCons(s[0], s[1..], v);
      }
      InsertByScore(s[0], rest)
  }

  lemma WithScoreCons(x: Prediction, s: seq<Prediction>, v: real)
    ensures WithScore([x] + s, v) == Single(x, v) + WithScore(s, v)
  {
    assert ([x] + s)[1..] == s;
  }

  lemma {:induction false} InsertSorted(x: Prediction, s: seq<Prediction>)
    requires SortedDesc(s)
    ensures SortedDesc(InsertByScore(x, s))
    ensures InsertByScore(x, s)[0] == x || InsertByScore(x, s)[0] == s[0]
  {
    if s != [] && x.score < s[0].score {
      InsertSorted(x, s[1..]);
    }
  }

  lemma {:induction false} InsertPermutes(x: Prediction, s: seq<Prediction>)
    ensures multiset(InsertByScore(x, s)) == multiset{x} + multiset(s)
  {
    if s != [] && x.score < s[0].score {
      InsertPermutes(x, s[1..]);
      assert s == [s[0]] + s[1..];
    }
  }

  /** Insertion keeps the order among entries of each score: `x` lands before the later equal ones. */
  lemma {:induction false} InsertStable(x: Prediction, s: seq<Prediction>, v: real)
    ensures WithScore(InsertByScore(x, s), v) == WithScore([x] + s, v)
  {
    if s != [] && x.score < s[0].score {
      var t := InsertByScore(x, s[1..]);
      calc {
        WithScore(InsertByScore(x, s), v);
        { assert InsertByScore(x, s) == [s[0]] + t; }
        WithScore([s[0]] + t, v);
        { WithScoreCons(s[0], t, v); }
        Single(s[0], v) + WithScore(t, v);
        { InsertStable(x, s[1..], v); WithScoreCons(x, s[1..], v); }
        Single(s[0], v) + (Single(x, v) + WithScore(s[1..], v));
        // `x` and `s[0]` score differently, so at most one of them is kept
        Single(x, v) + (Single(s[0], v) + WithScore(s[1..], v));
        Single(x, v) + WithScore(s, v);
        { WithScoreCons(x, s, v); }
        WithScore([x] + s, v);
      }
    }
  }

  /** No entry scores `v` exactly when `WithScore` finds none. */
  lemma {:induction false} WithScoreEmpty(s: seq<Prediction>, v: real)
    ensures WithScore(s, v) == [] <==> forall m :: 0 <= m < |s| ==> s[m].score != v
  {
    if s != [] {
      WithScoreEmpty(s[1..], v);
      assert forall m :: 1 <= m < |s| ==> s[m] == s[1..][m - 1];
    }
  }

  /**
   * A stable sort has only one possible result: two sorted sequences that
   * agree, score by score, on the order of their entries are equal.
   */
  lemma {:induction false} StableSortUnique(t: seq<Prediction>, u: seq<Prediction>)
    requires SortedDesc(t) && SortedDesc(u)
    requires forall v :: WithScore(t, v) == WithScore(u, v)
    ensures t == u
    decreases |t|
  {
    if t == [] || u == [] {
      if t != [] {
        WithScoreEmpty(t, t[0].score);
      } else if u != [] {
        WithScoreEmpty(u, u[0].score);
      }
    } else {
      var a, b := t[0].score, u[0].score;
      WithScoreEmpty(t, b);
      WithScoreEmpty(u, a);
      assert WithScore(t, a) != [];
      assert WithScore(u, b) != [];
      assert a == b;
      assert WithScore(t, a) == [t[0]] + WithScore(t[1..], a);
      assert WithScore(u, a) == [u[0]] + WithScore(u[1..], a);
      assert t[0] == WithScore(t, a)[0] == WithScore(u, a)[0] == u[0];
      forall v ensures WithScore(t[1..], v) == WithScore(u[1..], v) {
        if v == a {
          assert WithScore(t[1..], a) == WithScore(t, a)[1..];
          assert WithScore(u[1..], a) == WithScore(u, a)[1..];
        } else {
          assert WithScore(t, v) == WithScore(t[1..], v);
          assert WithScore(u, v) == WithScore(u[1..], v);
        }
      }
      StableSortUnique(t[1..], u[1..]);
      assert t == [t[0]] + t[1..] && u == [u[0]] + u[1..];
    }
  }

  /** Any sorted arrangement that keeps the order of equal scores is the result of `SortByScore`. */
  lemma SortIsTheStableSort(s: seq<Prediction>, t: seq<Prediction>)
    requires SortedDesc(t)
    requires forall v :: WithScore(t, v) == WithScore(s, v)
    ensures t == SortByScore(s)
  {
    var r := SortByScore(s);
    forall v ensures WithScore(t, v) == WithScore(r, v) {
    }
    StableSortUnique(t, r);
  }

  lemma {:induction false} WithScoreAppend(a: seq<Prediction>, b: seq<Prediction>, v: real)
    ensures WithScore(a + b, v) == WithScore(a, v) + WithScore(b, v)
  {
    if a != [] {
      WithScoreAppend(a[1..], b, v);
      assert (a + b)[1..] == a[1..] + b;
    } else {
      assert a + b == b;
    }
  }

  /** The first entry that `WithScore` reports is the first entry of `s` with that score. */
  lemma {:induction false} WithScoreHead(s: seq<Prediction>, v: real) returns (i: nat)
    requires WithScore(s, v) != []
    ensures i < |s| && s[i] == WithScore(s, v)[0] && s[i].score == v
    ensures forall j :: 0 <= j < i ==> s[j].score != v
  {
    if s[0].score == v {
      i := 0;
    } else {
      var i' := WithScoreHead(s[1..], v);
      assert forall j :: 1 <= j <= i' + 1 ==> s[j] == s[1..][j - 1];
      i := i' + 1;
    }
  }

  // ---------------------------------------------------------------------
  // The threshold filter
  // ---------------------------------------------------------------------

  /** An entry under its application label. */
  function Remap(p: Prediction): Prediction {
    Prediction(MapZeroShotLabel(p.lab), p.score)
  }

  function RemapAll(s: seq<Prediction>): seq<Prediction> {
    seq(|s|, k requires 0 <= k < |s| => Remap(s[k]))
  }

  /** The entries of `s` above the threshold, remapped, in order; built from the back as the loop builds it. */
  function KeepAboveThreshold(s: seq<Prediction>): seq<Prediction> {
    if s == [] then []
    else
      var init := KeepAboveThreshold(s[..|s| - 1]);
      if s[|s| - 1].score > Threshold then init + [Remap(s[|s| - 1])] else init
  }

  /** The raw entries above the threshold, in order, not remapped. */
  function Above(s: seq<Prediction>): seq<Prediction> {
    if s == [] then [] else (if s[0].score > Threshold then [s[0]] else []) + Above(s[1..])
  }

  lemma RemapAllSnoc(a: seq<Prediction>, x: Prediction)
    ensures RemapAll(a + [x]) == RemapAll(a) + [Remap(x)]
  {
  }

  /** The last step of the filter: how keeping or dropping the last entry extends the result. */
  lemma KeepSnoc(s: seq<Prediction>)
    requires s != []
    ensures KeepAboveThreshold(s) ==
      if s[|s| - 1].score > Threshold then KeepAboveThreshold(s[..|s| - 1]) + [Remap(s[|s| - 1])]
      else KeepAboveThreshold(s[..|s| - 1])
  {
  }

  /** On a sorted list the filter keeps a prefix: everything before the first entry at or under the threshold. */
  lemma {:induction false} KeepIsRemappedPrefix(s: seq<Prediction>)
    requires SortedDesc(s)
    ensures |KeepAboveThreshold(s)| <= |s|
    ensures KeepAboveThreshold(s) == RemapAll(s[..|KeepAboveThreshold(s)|])
    ensures forall k :: 0 <= k < |KeepAboveThreshold(s)| ==> s[k].score > Threshold
    ensures forall k :: |KeepAboveThreshold(s)| <= k < |s| ==> s[k].score <= Threshold
  {
    if s != [] {
      var init := s[..|s| - 1];
      assert SortedDesc(init);
      KeepIsRemappedPrefix(init);
      var x := s[|s| - 1];
      KeepSnoc(s);
      assert s == init + [x];
      if x.score > Threshold {
        KeepPrefixGrows(init, x, KeepAboveThreshold(init));
      } else {
        KeepPrefixStops(init, x, KeepAboveThreshold(init));
      }
    }
  }

  /** The inductive step when the last entry is above the threshold: on a sorted list so is everything. */
  lemma KeepPrefixGrows(init: seq<Prediction>, x: Prediction, r: seq<Prediction>)
    requires SortedDesc(init + [x]) && x.score > Threshold
    requires |r| <= |init| && r == RemapAll(init[..|r|])
    requires forall k :: |r| <= k < |init| ==> init[k].score <= Threshold
    ensures |r + [Remap(x)]| == |init + [x]|
    ensures r + [Remap(x)] == RemapAll((init + [x])[..|init + [x]|])
    ensures forall k :: 0 <= k < |init + [x]| ==> (init + [x])[k].score > Threshold
  {
    var s := init + [x];
    assert forall k :: 0 <= k < |init| ==> init[k] == s[k];
    assert forall k :: 0 <= k < |init| ==> s[k].score >= s[|s| - 1].score;
    assert init != [] ==> init[|init| - 1].score > Threshold;
    assert |r| == |init|;
    assert init[..|r|] == init;
    RemapAllSnoc(init, x);
    assert s[..|s|] == s;
  }

  /** The inductive step when the last entry is at or under the threshold. */
  lemma KeepPrefixStops(init: seq<Prediction>, x: Prediction, r: seq<Prediction>)
    requires x.score <= Threshold
    requires |r| <= |init| && r == RemapAll(init[..|r|])
    requires forall k :: 0 <= k < |r| ==> init[k].score > Threshold
    requires forall k :: |r| <= k < |init| ==> init[k].score <= Threshold
    ensures r == RemapAll((init + [x])[..|r|])
    ensures forall k :: 0 <= k < |r| ==> (init + [x])[k].score > Threshold
    ensures forall k :: |r| <= k < |init + [x]| ==> (init + [x])[k].score <= Threshold
  {
    assert (init + [x])[..|r|] == init[..|r|];
    assert forall k :: 0 <= k < |init| ==> (init + [x])[k] == init[k];
  }

  lemma {:induction false} AboveWithScore(s: seq<Prediction>, v: real)
    ensures WithScore(Above(s), v) == if v > Threshold then WithScore(s, v) else []
  {
    if s != [] {
      AboveWithScore(s[1..], v);
      WithScoreAppend(if s[0].score > Threshold then [s[0]] else [], Above(s[1..]), v);
    }
  }

  lemma {:induction false} AboveEmpty(s: seq<Prediction>)
    ensures Above(s) == [] <==> forall k :: 0 <= k < |s| ==> s[k].score <= Threshold
  {
    if s != [] {
      AboveEmpty(s[1..]);
      assert forall k :: 1 <= k < |s| ==> s[k] == s[1..][k - 1];
    }
  }

  /**
   * Sorting and then keeping the entries above the threshold gives the
   * same list as keeping them first and sorting those: the detailed
   * predictions are exactly the raw entries above the threshold, stably
   * sorted by descending score, under their application labels.
   */
  lemma FilterCommutesWithSort(raw: seq<Prediction>)
    ensures KeepAboveThreshold(SortByScore(raw)) == RemapAll(SortByScore(Above(raw)))
  {
    var s := SortByScore(raw);
    KeepIsRemappedPrefix(s);
    var n := |KeepAboveThreshold(s)|;
    var p := s[..n];
    assert SortedDesc(p);
    forall v ensures WithScore(p, v) == WithScore(Above(raw), v) {
      PrefixAboveWithScore(s, n, v);
      AboveWithScore(raw, v);
    }
    SortIsTheStableSort(Above(raw), p);
  }

  /** When `s` is above the threshold before `n` and not from `n` on, its first `n` entries hold all its entries of each score above it. */
  lemma PrefixAboveWithScore(s: seq<Prediction>, n: nat, v: real)
    requires n <= |s|
    requires forall k :: 0 <= k < n ==> s[k].score > Threshold
    requires forall k :: n <= k < |s| ==> s[k].score <= Threshold
    ensures WithScore(s[..n], v) == if v > Threshold then WithScore(s, v) else []
  {
    assert s == s[..n] + s[n..];
    WithScoreAppend(s[..n], s[n..], v);
    WithScoreEmpty(s[..n], v);
    WithScoreEmpty(s[n..], v);
  }

  /** Nothing is kept exactly when no raw entry is above the threshold. */
  lemma NothingAboveThreshold(raw: seq<Prediction>)
    ensures KeepAboveThreshold(SortByScore(raw)) == [] <==> forall k :: 0 <= k < |raw| ==> raw[k].score <= Threshold
  {
    FilterCommutesWithSort(raw);
    AboveEmpty(raw);
    var a := Above(raw);
    assert |SortByScore(a)| == |multiset(SortByScore(a))| == |multiset(a)| == |a|;
  }

  /** The detailed list is sorted by descending score, and every score in it is above the threshold. */
  lemma DetailedRankedAboveThreshold(raw: seq<Prediction>)
    ensures SortedDesc(RemapAll(SortByScore(Above(raw))))
    ensures forall k :: 0 <= k < |RemapAll(SortByScore(Above(raw)))| ==>
              RemapAll(SortByScore(Above(raw)))[k].score > Threshold
  {
    var s := SortByScore(raw);
    FilterCommutesWithSort(raw);
    KeepIsRemappedPrefix(s);
    var d := KeepAboveThreshold(s);
    assert forall k :: 0 <= k < |d| ==> d[k].score == s[k].score;
  }

  /**
   * The head of the sorted list is the first raw entry with the largest
   * score: larger than every entry before it, at least every entry after.
   */
  lemma PrimaryIsFirstMaximum(raw: seq<Prediction>)
    requires raw != []
    ensures SortByScore(raw) != []
    ensures exists i :: 0 <= i < |raw| && raw[i] == SortByScore(raw)[0]
                        && (forall j :: 0 <= j < i ==> raw[j].score < raw[i].score)
                        && (forall j :: i <= j < |raw| ==> raw[j].score <= raw[i].score)
  {
    var i := FirstMaximumIndex(raw);
  }

  /** The index of the first raw entry with the largest score, which heads the sorted list. */
  lemma FirstMaximumIndex(raw: seq<Prediction>) returns (i: nat)
    requires raw != []
    ensures SortByScore(raw) != []
    ensures i < |raw| && raw[i] == SortByScore(raw)[0]
    ensures forall j :: 0 <= j < i ==> raw[j].score < raw[i].score
    ensures forall j :: i <= j < |raw| ==> raw[j].score <= raw[i].score
  {
    var s := SortByScore(raw);
    HeadIsMaximum(raw);
    var v := s[0].score;
    assert WithScore(s, v) == [s[0]] + WithScore(s[1..], v);
    i := WithScoreHead(raw, v);
  }

  /** No raw entry scores more than the head of the sorted list. */
  lemma HeadIsMaximum(raw: seq<Prediction>)
    requires raw != []
    ensures SortByScore(raw) != []
    ensures forall j :: 0 <= j < |raw| ==> raw[j].score <= SortByScore(raw)[0].score
  {
    var s := SortByScore(raw);
    assert |s| == |multiset(s)| == |multiset(raw)| == |raw|;
    forall j | 0 <= j < |raw| ensures raw[j].score <= s[0].score {
      assert raw[j] in multiset(s);
      var k :| 0 <= k < |s| && s[k] == raw[j];
    }
  }

  /** When something is kept, its first entry is the remapped head of the sorted list. */
  lemma KeptHeadIsPrimary(s: seq<Prediction>)
    requires SortedDesc(s)
    requires KeepAboveThreshold(s) != []
    ensures KeepAboveThreshold(s)[0] == Remap(s[0])
    ensures s[0].score > Threshold
  {
    KeepIsRemappedPrefix(s);
  }
}
