/** Supervised binning of a numeric attribute and the lookup of a value's
    bin (AttributeSet.bin, discretiseAllNumericAttributes and findBin).
    The functions here are the specification; FindBestBoundary and FindBin
    are the source's loops, proved against them, and AttributeSet.Bin in
    module Attributes is the recursion proved against BinSpec. */
module Binning {
  import opened Helpers

  /** A numeric attribute value paired with the class label of its example. */
  type Observation = (real, bool)

  /** A split threshold: a finite double or the +infinity sentinel. */
  datatype Bound = Finite(t: real) | Infinity

  /** Split budget of one attribute (MAX_SPLITS). */
  const MaxSplits := 10

  /** 2^1074. */
  const TwoTo1074: int := 2024022533073106183524953467189173070495566497641421183569013580274303395679953468919603837

  /** Double.MIN_VALUE, the smallest positive double (2^-1074): the initial
      best gain, so a boundary needs a strictly positive gain. */
  const MinDouble: real := 1.0 / TwoTo1074 as real

  /** The midpoint between two neighbouring values, in exact arithmetic. */
  function Midpoint(a: real, b: real): real
  {
    (a + b) * 0.5
  }

  // ---------------------------------------------------------------------
  // Counting labels

  /** Number of "+" labels among the first k observations. */
  function PrefixTrue(s: seq<Observation>, k: nat): nat
    requires k <= |s|
  {
    if k == 0 then 0 else PrefixTrue(s, k - 1) + (if s[k - 1].1 then 1 else 0)
  }

  /** Number of "-" labels among the first k observations. */
  function PrefixFalse(s: seq<Observation>, k: nat): nat
    requires k <= |s|
  {
    if k == 0 then 0 else PrefixFalse(s, k - 1) + (if s[k - 1].1 then 0 else 1)
  }

  /** Every observation of a prefix is counted once, as "+" or as "-". */
  lemma {:induction false} PrefixTotal(s: seq<Observation>, k: nat)
    requires k <= |s|
    ensures PrefixTrue(s, k) + PrefixFalse(s, k) == k
  {
    if k > 0 {
      PrefixTotal(s, k - 1);
    }
  }

  // ---------------------------------------------------------------------
  // Sorting (List.sort with a comparator on the value: a stable sort)

  predicate SortedByValue(s: seq<Observation>)
  {
    forall i, j :: 0 <= i < j < |s| ==> s[i].0 <= s[j].0
  }

  /** The observations whose value is exactly `x`, in list order. */
  function WithValue(s: seq<Observation>, x: real): seq<Observation>
  {
    if s == [] then []
    else WithValue(s[..|s| - 1], x) + (if s[|s| - 1].0 == x then [s[|s| - 1]] else [])
  }

  /** Places `o` after every entry whose value is at most its own. */
  function Insert(sorted: seq<Observation>, o: Observation): seq<Observation>
  {
    if sorted == [] || sorted[|sorted| - 1].0 <= o.0 then sorted + [o]
    else Insert(sorted[..|sorted| - 1], o) + [sorted[|sorted| - 1]]
  }

  /** Stable insertion sort by value. */
  function SortByValue(s: seq<Observation>): seq<Observation>
  {
    if s == [] then [] else Insert(SortByValue(s[..|s| - 1]), s[|s| - 1])
  }

  /** Inserting below a common upper bound stays below it. */
  lemma {:induction false} InsertBounded(sorted: seq<Observation>, o: Observation, bound: real)
    requires forall k :: 0 <= k < |sorted| ==> sorted[k].0 <= bound
    requires o.0 <= bound
    ensures forall k :: 0 <= k < |Insert(sorted, o)| ==> Insert(sorted, o)[k].0 <= bound
  {
    if sorted == [] || sorted[|sorted| - 1].0 <= o.0 {
    } else {
      InsertBounded(sorted[..|sorted| - 1], o, bound);
    }
  }

  lemma {:induction false} InsertSorted(sorted: seq<Observation>, o: Observation)
    requires SortedByValue(sorted)
    ensures SortedByValue(Insert(sorted, o))
  {
    if sorted == [] || sorted[|sorted| - 1].0 <= o.0 {
    } else {
      var init := sorted[..|sorted| - 1];
      var last := sorted[|sorted| - 1];
      InsertSorted(init, o);
      InsertBounded(init, o, last.0);
      var r := Insert(init, o);
      assert Insert(sorted, o) == r + [last];
    }
  }

  lemma {:induction false} InsertMultiset(sorted: seq<Observation>, o: Observation)
    ensures multiset(Insert(sorted, o)) == multiset(sorted) + multiset{o}
    ensures |Insert(sorted, o)| == |sorted| + 1
  {
    if sorted == [] || sorted[|sorted| - 1].0 <= o.0 {
    } else {
      var init := sorted[..|sorted| - 1];
      InsertMultiset(init, o);
      assert sorted == init + [sorted[|sorted| - 1]];
    }
  }

  lemma {:induction false} InsertStable(sorted: seq<Observation>, o: Observation, x: real)
    ensures WithValue(Insert(sorted, o), x) == WithValue(sorted, x) + (if o.0 == x then [o] else [])
  {
    if sorted == [] || sorted[|sorted| - 1].0 <= o.0 {
      assert (sorted + [o])[..|sorted|] == sorted;
    } else {
      var init := sorted[..|sorted| - 1];
      var last := sorted[|sorted| - 1];
      InsertStable(init, o, x);
      var r := Insert(init, o);
      assert (r + [last])[..|r|] == r;
    }
  }

  /** The sort orders by value, keeps the same observations, and keeps the
      relative order of observations with equal values. */
  lemma {:induction false} SortByValueCorrect(s: seq<Observation>)
    ensures SortedByValue(SortByValue(s))
    ensures multiset(SortByValue(s)) == multiset(s)
    ensures |SortByValue(s)| == |s|
    ensures forall x :: WithValue(SortByValue(s), x) == WithValue(s, x)
  {
    if s != [] {
      var init := s[..|s| - 1];
      SortByValueCorrect(init);
      InsertSorted(SortByValue(init), s[|s| - 1]);
      InsertMultiset(SortByValue(init), s[|s| - 1]);
      assert s == init + [s[|s| - 1]];
      forall x ensures WithValue(SortByValue(s), x) == WithValue(s, x) {
        InsertStable(SortByValue(init), s[|s| - 1], x);
      }
    }
  }

  // ---------------------------------------------------------------------
  // Candidate boundaries of the scan

  /** Index just past the run of entries from `j` on whose value is `x`. */
  function RunEnd(values: seq<Observation>, x: real, j: nat): (r: nat)
    requires j <= |values|
    ensures j <= r <= |values|
    ensures forall k :: j <= k < r ==> values[k].0 == x
    ensures r == |values| || values[r].0 != x
    decreases |values| - j
  {
    if j < |values| && values[j].0 == x then RunEnd(values, x, j + 1) else j
  }

  /** A candidate boundary: entries [lb, rb) share the value of entry lb;
      the left side of the split is [0, rb). */
  datatype Boundary = Boundary(lb: nat, rb: nat)

  /** The candidate boundaries the scan meets from index `i` on. An index
      is a candidate when its label differs from `lastChange`, which the scan
      refreshes only while it skips the entries equal in value to a
      candidate; the scan resumes after those entries. */
  function CandidatesFrom(values: seq<Observation>, i: nat, lastChange: bool): (r: seq<Boundary>)
    requires 1 <= i <= |values|
    ensures forall k :: 0 <= k < |r| ==> i <= r[k].lb < r[k].rb <= |values|
    decreases |values| - i
  {
    if i == |values| then []
    else if values[i].1 != lastChange then
      var rb := RunEnd(values, values[i].0, i + 1);
      var lc := if rb > i + 1 then values[rb - 1].1 else lastChange;
      [Boundary(i, rb)] + CandidatesFrom(values, rb, lc)
    else
      CandidatesFrom(values, i + 1, lastChange)
  }

  function Candidates(values: seq<Observation>): (r: seq<Boundary>)
    requires |values| >= 1
    ensures forall k :: 0 <= k < |r| ==> 1 <= r[k].lb < r[k].rb <= |values|
  {
    CandidatesFrom(values, 1, values[0].1)
  }

  /** One side's share of the split entropy: its fraction of the sample
      times the entropy of its "+" ratio. */
  function WeightedEntropy(log2: real -> real, pos: int, neg: int, sampleSize: int): real
    requires pos + neg != 0 && sampleSize != 0
  {
    (pos + neg) as real / sampleSize as real * BinomialEntropy(log2, pos as real / (pos + neg) as real)
  }

  /** Information gain of cutting after boundary `b`, or None where the
      source's double arithmetic divides 0 by 0 (an empty side), which
      makes the gain NaN. */
  function SplitGain(log2: real -> real, p: int, n: int, values: seq<Observation>, b: Boundary): Option<real>
    requires p + n != 0 && b.rb <= |values|
  {
    var pLeft := PrefixTrue(values, b.rb);
    var nLeft := PrefixFalse(values, b.rb);
    var pRight := p - pLeft;
    var nRight := n - nLeft;
    if pLeft + nLeft == 0 || pRight + nRight == 0 then None
    else
      Some(BinomialEntropy(log2, p as real / (p + n) as real)
        - (WeightedEntropy(log2, pLeft, nLeft, p + n) + WeightedEntropy(log2, pRight, nRight, p + n)))
  }

  /** The gains of a list of candidates, in order. */
  function Gains(log2: real -> real, p: int, n: int, values: seq<Observation>, cands: seq<Boundary>)
    : (r: seq<Option<real>>)
    requires p + n != 0
    requires forall k :: 0 <= k < |cands| ==> cands[k].rb <= |values|
    ensures |r| == |cands|
  {
    if cands == [] then []
    else Gains(log2, p, n, values, cands[..|cands| - 1]) + [SplitGain(log2, p, n, values, cands[|cands| - 1])]
  }

  lemma {:induction false} GainsAt(log2: real -> real, p: int, n: int, values: seq<Observation>, cands: seq<Boundary>, k: nat)
    requires p + n != 0
    requires forall k :: 0 <= k < |cands| ==> cands[k].rb <= |values|
    requires k < |cands|
    ensures Gains(log2, p, n, values, cands)[k] == SplitGain(log2, p, n, values, cands[k])
  {
    if k < |cands| - 1 {
      GainsAt(log2, p, n, values, cands[..|cands| - 1], k);
    }
  }

  /** The boundary the scan settles on: the first candidate of greatest
      gain, provided that gain exceeds Double.MIN_VALUE. */
  function BestBoundary(log2: real -> real, p: int, n: int, values: seq<Observation>): (r: Option<Boundary>)
    requires |values| >= 2 && p + n != 0
    ensures r.Some? ==> 1 <= r.value.lb < r.value.rb <= |values|
  {
    var cands := Candidates(values);
    var best := FirstMax(Gains(log2, p, n, values, cands), MinDouble);
    if best.None? then None else Some(cands[best.value])
  }

  /** The chosen boundary is a candidate whose gain exceeds Double.MIN_VALUE
      and is strictly greater than every earlier candidate's and at least
      every later candidate's; there is none exactly when no candidate's
      gain exceeds Double.MIN_VALUE. */
  lemma BestBoundaryIsBest(log2: real -> real, p: int, n: int, values: seq<Observation>)
    requires |values| >= 2 && p + n != 0
    ensures var cands := Candidates(values);
      var r := BestBoundary(log2, p, n, values);
      (r.None? <==> forall k :: 0 <= k < |cands| && SplitGain(log2, p, n, values, cands[k]).Some? ==>
         SplitGain(log2, p, n, values, cands[k]).value <= MinDouble) &&
      (r.Some? ==>
         exists i :: 0 <= i < |cands| && cands[i] == r.value &&
           SplitGain(log2, p, n, values, r.value).Some? &&
           SplitGain(log2, p, n, values, r.value).value > MinDouble &&
           (forall k :: 0 <= k < i && SplitGain(log2, p, n, values, cands[k]).Some? ==>
              SplitGain(log2, p, n, values, cands[k]).value < SplitGain(log2, p, n, values, r.value).value) &&
           (forall k :: i < k < |cands| && SplitGain(log2, p, n, values, cands[k]).Some? ==>
              SplitGain(log2, p, n, values, cands[k]).value <= SplitGain(log2, p, n, values, r.value).value))
  {
    var cands := Candidates(values);
    var gains := Gains(log2, p, n, values, cands);
    var best := FirstMax(gains, MinDouble);
    forall k | 0 <= k < |cands|
      ensures gains[k] == SplitGain(log2, p, n, values, cands[k])
    {
      GainsAt(log2, p, n, values, cands, k);
    }
    if best.Some? {
      assert cands[best.value] == BestBoundary(log2, p, n, values).value;
    }
  }

  // ---------------------------------------------------------------------
  // The binning recursion

  /** How bin picks its boundary from (p, n, values). */
  type Chooser = (int, int, seq<Observation>) -> Option<Boundary>

  /** bin's own choice: the best boundary of lists of two or more entries. */
  function ScanChooser(log2: real -> real): Chooser
  {
    (p: int, n: int, values: seq<Observation>) =>
      if |values| >= 2 && p + n != 0 then BestBoundary(log2, p, n, values) else None
  }

  /** bin(p, n, values) started with split counter `count`: the thresholds
      it returns and the counter afterwards. The counter is tested before
      the search and increased only after both recursive calls. BinSpec
      takes the boundary choice as a parameter so that its properties are
      proved once for any choice; Discretise passes ScanChooser. A choice
      outside the list (never made by ScanChooser) ends the recursion. */
  function BinSpec(choose: Chooser, count: int, p: int, n: int, values: seq<Observation>)
    : (r: (seq<real>, int))
    decreases |values|, 1
  {
    if count > MaxSplits || |values| == 0 || p + n == 0 || |values| == 1 then ([], count)
    else
      var c := choose(p, n, values);
      if c.None? || !(1 <= c.value.lb < c.value.rb <= |values|) then ([], count)
      else BinAt(choose, count, p, n, values, c.value)
  }

  /** The recursive step of bin at boundary `b`: the threshold midway
      between entries lb-1 and lb, the left call on entries [0, lb) with
      the counts of [0, rb), and the right call on entries [rb, end) with
      the remaining counts. The entries [lb, rb), equal in value to entry
      lb, go to neither call. */
  function BinAt(choose: Chooser, count: int, p: int, n: int, values: seq<Observation>, b: Boundary)
    : (r: (seq<real>, int))
    requires 1 <= b.lb < b.rb <= |values|
    decreases |values|, 0
  {
    var pLeft := PrefixTrue(values, b.rb);
    var nLeft := PrefixFalse(values, b.rb);
    var left := BinSpec(choose, count, pLeft, nLeft, values[..b.lb]);
    var right := BinSpec(choose, left.1, p - pLeft, n - nLeft, values[b.rb..]);
    (left.0 + [Midpoint(values[b.lb - 1].0, values[b.lb].0)] + right.0, right.1 + 1)
  }

  /** The counter grows by exactly the number of thresholds returned. */
  lemma {:induction false} BinSpecCounter(choose: Chooser, count: int, p: int, n: int, values: seq<Observation>)
    ensures BinSpec(choose, count, p, n, values).1 == count + |BinSpec(choose, count, p, n, values).0|
    decreases |values|, 1
  {
    if count <= MaxSplits && |values| >= 2 && p + n != 0 {
      var c := choose(p, n, values);
      if c.Some? && 1 <= c.value.lb < c.value.rb <= |values| {
        BinAtCounter(choose, count, p, n, values, c.value);
      }
    }
  }

  lemma {:induction false} BinAtCounter(choose: Chooser, count: int, p: int, n: int, values: seq<Observation>, b: Boundary)
    requires 1 <= b.lb < b.rb <= |values|
    ensures BinAt(choose, count, p, n, values, b).1 == count + |BinAt(choose, count, p, n, values, b).0|
    decreases |values|, 0
  {
    var pLeft := PrefixTrue(values, b.rb);
    var nLeft := PrefixFalse(values, b.rb);
    BinSpecCounter(choose, count, pLeft, nLeft, values[..b.lb]);
    var left := BinSpec(choose, count, pLeft, nLeft, values[..b.lb]);
    BinSpecCounter(choose, left.1, p - pLeft, n - nLeft, values[b.rb..]);
  }

  /** The cases in which bin returns no threshold at all. */
  lemma BinSpecEmpty(log2: real -> real, count: int, p: int, n: int, values: seq<Observation>)
    requires count > MaxSplits || |values| <= 1 || p + n == 0
      || BestBoundary(log2, p, n, values).None?
    ensures BinSpec(ScanChooser(log2), count, p, n, values) == ([], count)
  {
  }

  /** Where the choice yields a boundary inside the list, bin takes the
      recursive step there; where it yields none, bin stops. */
  lemma BinSpecChosen(choose: Chooser, count: int, p: int, n: int, values: seq<Observation>, b: Boundary)
    requires count <= MaxSplits && |values| >= 2 && p + n != 0
    requires choose(p, n, values) == Some(b) && 1 <= b.lb < b.rb <= |values|
    ensures BinSpec(choose, count, p, n, values) == BinAt(choose, count, p, n, values, b)
  {
  }

  lemma BinSpecUnchosen(choose: Chooser, count: int, p: int, n: int, values: seq<Observation>)
    requires count > MaxSplits || |values| <= 1 || p + n == 0 || choose(p, n, values).None?
    ensures BinSpec(choose, count, p, n, values) == ([], count)
  {
  }

  /** bin's boundary search seen through the choice function BinSpec is
      given: FindBestBoundary's answer stated for ScanChooser. */
  method ChooseBoundary(log2: real -> real, p: int, n: int, values: seq<Observation>)
    returns (found: bool, threshold: real, bestLb: nat, bestRb: nat, pLeftBest: int, nLeftBest: int)
    requires |values| >= 2 && p + n != 0
    ensures found <==> ScanChooser(log2)(p, n, values).Some?
    ensures found ==>
      ScanChooser(log2)(p, n, values) == Some(Boundary(bestLb, bestRb)) &&
      1 <= bestLb < bestRb <= |values| &&
      threshold == Midpoint(values[bestLb - 1].0, values[bestLb].0) &&
      pLeftBest == PrefixTrue(values, bestRb) && nLeftBest == PrefixFalse(values, bestRb)
  {
    found, threshold, bestLb, bestRb, pLeftBest, nLeftBest := FindBestBoundary(log2, p, n, values);
  }

  /** BinAt in terms of the results of its two recursive calls. */
  lemma BinAtResult(choose: Chooser, count: int, p: int, n: int, values: seq<Observation>, b: Boundary,
                    pLeft: int, nLeft: int, left: seq<real>, leftCount: int,
                    pRight: int, nRight: int, right: seq<real>, rightCount: int)
    requires 1 <= b.lb < b.rb <= |values|
    requires pLeft == PrefixTrue(values, b.rb) && nLeft == PrefixFalse(values, b.rb)
    requires pRight == p - pLeft && nRight == n - nLeft
    requires left == BinSpec(choose, count, pLeft, nLeft, values[..b.lb]).0
    requires leftCount == BinSpec(choose, count, pLeft, nLeft, values[..b.lb]).1
    requires right == BinSpec(choose, leftCount, pRight, nRight, values[b.rb..]).0
    requires rightCount == BinSpec(choose, leftCount, pRight, nRight, values[b.rb..]).1
    ensures BinAt(choose, count, p, n, values, b).0 == left + [Midpoint(values[b.lb - 1].0, values[b.lb].0)] + right
    ensures BinAt(choose, count, p, n, values, b).1 == rightCount + 1
  {
  }

  predicate Ascending(s: seq<real>)
  {
    forall i, j :: 0 <= i < j < |s| ==> s[i] <= s[j]
  }

  /** Every entry of `r` lies in [lo, hi]. */
  predicate Within(r: seq<real>, lo: real, hi: real)
  {
    forall k :: 0 <= k < |r| ==> lo <= r[k] <= hi
  }

  lemma SortedSlices(values: seq<Observation>, lb: nat, rb: nat)
    requires SortedByValue(values) && 1 <= lb < rb <= |values|
    ensures SortedByValue(values[..lb]) && SortedByValue(values[rb..])
    ensures values[..lb][0].0 == values[0].0 && values[..lb][lb - 1].0 == values[lb - 1].0
    ensures values[0].0 <= values[lb - 1].0 <= values[lb].0 <= values[|values| - 1].0
    ensures rb < |values| ==>
      values[lb].0 <= values[rb..][0].0 && values[rb..][|values| - rb - 1].0 == values[|values| - 1].0
  {
  }

  lemma JoinAscending(left: seq<real>, t: real, right: seq<real>, lo: real, mid1: real, mid2: real, hi: real)
    requires Ascending(left) && Within(left, lo, mid1)
    requires Ascending(right) && Within(right, mid2, hi)
    requires lo <= mid1 <= t <= mid2 <= hi
    ensures Ascending(left + [t] + right) && Within(left + [t] + right, lo, hi)
  {
  }

  /** On sorted input whose values lie in [lo, hi] the thresholds come out
      in ascending order, each within [lo, hi]. */
  lemma {:induction false} BinSpecOrdered(choose: Chooser, count: int, p: int, n: int, values: seq<Observation>,
                                          lo: real, hi: real)
    requires SortedByValue(values)
    requires |values| > 0 ==> lo <= values[0].0 && values[|values| - 1].0 <= hi
    ensures var r := BinSpec(choose, count, p, n, values).0;
      Ascending(r) && Within(r, lo, hi)
    decreases |values|, 1
  {
    if count <= MaxSplits && |values| >= 2 && p + n != 0 {
      var c := choose(p, n, values);
      if c.Some? && 1 <= c.value.lb < c.value.rb <= |values| {
        SortedSlices(values, c.value.lb, c.value.rb);
        BinAtOrdered(choose, count, p, n, values, c.value, lo, hi);
      }
    }
  }

  lemma {:induction false} BinAtOrdered(choose: Chooser, count: int, p: int, n: int, values: seq<Observation>, b: Boundary,
                                        lo: real, hi: real)
    requires 1 <= b.lb < b.rb <= |values|
    requires SortedByValue(values[..b.lb]) && SortedByValue(values[b.rb..])
    requires lo <= values[0].0 <= values[b.lb - 1].0 <= values[b.lb].0 <= values[|values| - 1].0 <= hi
    requires b.rb < |values| ==> values[b.lb].0 <= values[b.rb].0
    ensures var r := BinAt(choose, count, p, n, values, b).0;
      Ascending(r) && Within(r, lo, hi)
    decreases |values|, 0
  {
    var pLeft := PrefixTrue(values, b.rb);
    var nLeft := PrefixFalse(values, b.rb);
    var lv, rv := values[..b.lb], values[b.rb..];
    var mid1, mid2 := values[b.lb - 1].0, values[b.lb].0;
    BinSpecOrdered(choose, count, pLeft, nLeft, lv, lo, mid1);
    var leftCount := BinSpec(choose, count, pLeft, nLeft, lv).1;
    BinSpecOrdered(choose, leftCount, p - pLeft, n - nLeft, rv, mid2, hi);
    BinAtJoin(choose, count, p, n, values, b, lo, hi);
  }

  /** BinAt's thresholds are ordered and within [lo, hi] once both
      recursive calls' thresholds are, on either side of the boundary. */
  lemma BinAtJoin(choose: Chooser, count: int, p: int, n: int, values: seq<Observation>, b: Boundary, lo: real, hi: real)
    requires 1 <= b.lb < b.rb <= |values|
    requires var left := BinSpec(choose, count, PrefixTrue(values, b.rb), PrefixFalse(values, b.rb), values[..b.lb]);
      Ascending(left.0) && Within(left.0, lo, values[b.lb - 1].0)
    requires var left := BinSpec(choose, count, PrefixTrue(values, b.rb), PrefixFalse(values, b.rb), values[..b.lb]);
      var right := BinSpec(choose, left.1, p - PrefixTrue(values, b.rb), n - PrefixFalse(values, b.rb), values[b.rb..]);
      Ascending(right.0) && Within(right.0, values[b.lb].0, hi)
    requires lo <= values[b.lb - 1].0 <= values[b.lb].0 <= hi
    ensures var r := BinAt(choose, count, p, n, values, b).0;
      Ascending(r) && Within(r, lo, hi)
  {
    var left := BinSpec(choose, count, PrefixTrue(values, b.rb), PrefixFalse(values, b.rb), values[..b.lb]);
    var right := BinSpec(choose, left.1, p - PrefixTrue(values, b.rb), n - PrefixFalse(values, b.rb), values[b.rb..]);
    JoinAscending(left.0, Midpoint(values[b.lb - 1].0, values[b.lb].0), right.0, lo, values[b.lb - 1].0, values[b.lb].0, hi);
  }

  // ---------------------------------------------------------------------
  // The scan loop of bin

  /** The scan's running maximum over `gains`: `found` says whether some gain
      exceeds Double.MIN_VALUE, `bestIndex` is the position FirstMax picks
      and `maxGain` its gain (Double.MIN_VALUE while nothing is found). */
  ghost predicate Tracks(gains: seq<Option<real>>, found: bool, bestIndex: nat, maxGain: real)
  {
    (found <==> FirstMax(gains, MinDouble).Some?) &&
    (found ==> FirstMax(gains, MinDouble) == Some(bestIndex) && gains[bestIndex] == Some(maxGain)) &&
    (!found ==> maxGain == MinDouble)
  }

  /** One more gain: the scan takes it exactly when it beats `maxGain`. */
  lemma TracksSnoc(gains: seq<Option<real>>, found: bool, bestIndex: nat, maxGain: real, x: Option<real>)
    requires Tracks(gains, found, bestIndex, maxGain)
    ensures x.Some? && x.value > maxGain ==> Tracks(gains + [x], true, |gains|, x.value)
    ensures !(x.Some? && x.value > maxGain) ==> Tracks(gains + [x], found, bestIndex, maxGain)
  {
    assert (gains + [x])[..|gains|] == gains;
  }

  lemma GainsSnoc(log2: real -> real, p: int, n: int, values: seq<Observation>, cands: seq<Boundary>, b: Boundary)
    requires p + n != 0
    requires forall k :: 0 <= k < |cands| ==> cands[k].rb <= |values|
    requires b.rb <= |values|
    ensures Gains(log2, p, n, values, cands + [b]) ==
      Gains(log2, p, n, values, cands) + [SplitGain(log2, p, n, values, b)]
  {
    assert (cands + [b])[..|cands|] == cands;
  }

  /** The scan meets a candidate at `i` and skips its run of equal values. */
  lemma CandidateStep(values: seq<Observation>, seen: seq<Boundary>, i: nat, lastChange: bool, j: nat, lastChange': bool)
    requires 1 <= i < |values| && values[i].1 != lastChange
    requires Candidates(values) == seen + CandidatesFrom(values, i, lastChange)
    requires j == RunEnd(values, values[i].0, i + 1)
    requires lastChange' == if j > i + 1 then values[j - 1].1 else lastChange
    ensures Candidates(values) == (seen + [Boundary(i, j)]) + CandidatesFrom(values, j, lastChange')
  {
  }

  /** The scan passes an index whose label equals `lastChange`. */
  lemma SkipStep(values: seq<Observation>, seen: seq<Boundary>, i: nat, lastChange: bool)
    requires 1 <= i < |values| && values[i].1 == lastChange
    requires Candidates(values) == seen + CandidatesFrom(values, i, lastChange)
    ensures Candidates(values) == seen + CandidatesFrom(values, i + 1, lastChange)
  {
  }

  /** The gain the scan computes for a boundary with a non-empty right side. */
  lemma SplitGainValue(log2: real -> real, p: int, n: int, values: seq<Observation>, b: Boundary, pLeft: int, nLeft: int)
    requires p + n != 0 && 1 <= b.rb <= |values|
    requires pLeft == PrefixTrue(values, b.rb) && nLeft == PrefixFalse(values, b.rb)
    requires (p - pLeft) + (n - nLeft) != 0
    ensures pLeft + nLeft != 0
    ensures SplitGain(log2, p, n, values, b) == Some(
      BinomialEntropy(log2, p as real / (p + n) as real) -
        (0.0 + WeightedEntropy(log2, pLeft, nLeft, p + n) + WeightedEntropy(log2, p - pLeft, n - nLeft, p + n)))
  {
    PrefixTotal(values, b.rb);
  }

  /** After the scan every candidate has been seen, so the running maximum
      is BestBoundary's choice. */
  lemma ScanDone(log2: real -> real, p: int, n: int, values: seq<Observation>, i: nat, lastChange: bool,
                 seen: seq<Boundary>, pLeft: int, nLeft: int, found: bool, bestIndex: nat, maxGain: real,
                 threshold: real, bestLb: nat, bestRb: nat, pLeftBest: int, nLeftBest: int)
    requires |values| >= 2 && i >= |values|
    requires ScanInv(log2, p, n, values, i, lastChange, seen, pLeft, nLeft, found, bestIndex, maxGain,
                     threshold, bestLb, bestRb, pLeftBest, nLeftBest)
    ensures found <==> BestBoundary(log2, p, n, values).Some?
    ensures found ==>
      BestBoundary(log2, p, n, values).value == Boundary(bestLb, bestRb) &&
      1 <= bestLb < bestRb <= |values| &&
      threshold == Midpoint(values[bestLb - 1].0, values[bestLb].0) &&
      pLeftBest == PrefixTrue(values, bestRb) && nLeftBest == PrefixFalse(values, bestRb)
  {
    assert seen + [] == seen;
  }

  /** The inner loop of the scan: from the candidate at `i`, take in the
      following entries equal in value to it, counting their labels and
      remembering the last one's label. */
  method SkipRun(values: seq<Observation>, i: nat, pLeft: int, nLeft: int, lastChange: bool)
    returns (j: nat, pLeft': int, nLeft': int, lastChange': bool)
    requires 1 <= i < |values|
    requires pLeft == PrefixTrue(values, i + 1) && nLeft == PrefixFalse(values, i + 1)
    ensures j == RunEnd(values, values[i].0, i + 1)
    ensures pLeft' == PrefixTrue(values, j) && nLeft' == PrefixFalse(values, j)
    ensures lastChange' == if j > i + 1 then values[j - 1].1 else lastChange
  {
    var x := values[i].0;
    pLeft', nLeft', lastChange' := pLeft, nLeft, lastChange;
    j := i + 1;
    while j < |values| && values[j].0 == x
      invariant i + 1 <= j <= |values|
      invariant RunEnd(values, x, j) == RunEnd(values, x, i + 1)
      invariant pLeft' == PrefixTrue(values, j) && nLeft' == PrefixFalse(values, j)
      invariant lastChange' == if j > i + 1 then values[j - 1].1 else lastChange
    {
      if values[j].1 {
        pLeft' := pLeft' + 1;
      } else {
        nLeft' := nLeft' + 1;
      }
      lastChange' := values[j].1;
      j := j + 1;
    }
  }

  /** One step of the scan at candidate `b`: the running maximum over the
      gains seen so far, extended by `b`'s gain. */
  lemma ConsiderStep(log2: real -> real, p: int, n: int, values: seq<Observation>, seen: seq<Boundary>, b: Boundary,
                     found: bool, bestIndex: nat, maxGain: real, found': bool, bestIndex': nat, maxGain': real)
    requires p + n != 0 && b.rb <= |values|
    requires forall k :: 0 <= k < |seen| ==> seen[k].rb <= |values|
    requires Tracks(Gains(log2, p, n, values, seen), found, bestIndex, maxGain)
    requires var g := SplitGain(log2, p, n, values, b);
      if g.Some? && g.value > maxGain then found' && bestIndex' == |seen| && maxGain' == g.value
      else found' == found && bestIndex' == bestIndex && maxGain' == maxGain
    ensures Tracks(Gains(log2, p, n, values, seen + [b]), found', bestIndex', maxGain')
  {
    GainsSnoc(log2, p, n, values, seen, b);
    TracksSnoc(Gains(log2, p, n, values, seen), found, bestIndex, maxGain, SplitGain(log2, p, n, values, b));
  }

  /** What the scan remembers about the best boundary among `seen`. */
  ghost predicate BestSoFar(values: seq<Observation>, seen: seq<Boundary>, found: bool, bestIndex: nat,
                            threshold: real, bestLb: nat, bestRb: nat, pLeftBest: int, nLeftBest: int)
  {
    found ==>
      bestIndex < |seen| && seen[bestIndex] == Boundary(bestLb, bestRb) &&
      1 <= bestLb < bestRb <= |values| &&
      threshold == Midpoint(values[bestLb - 1].0, values[bestLb].0) &&
      pLeftBest == PrefixTrue(values, bestRb) && nLeftBest == PrefixFalse(values, bestRb)
  }

  /** The body of bin's scan at a candidate boundary [lb, rb): weigh the
      entropies of the two sides and keep the boundary when its gain beats
      the best so far. */
  method ConsiderBoundary(log2: real -> real, p: int, n: int, values: seq<Observation>, goalEntropy: real,
                          ghost seen: seq<Boundary>, lb: nat, rb: nat, pLeft: int, nLeft: int,
                          found: bool, ghost bestIndex: nat, maxGain: real,
                          threshold: real, bestLb: nat, bestRb: nat, pLeftBest: int, nLeftBest: int)
    returns (found': bool, ghost bestIndex': nat, maxGain': real,
             threshold': real, bestLb': nat, bestRb': nat, pLeftBest': int, nLeftBest': int)
    requires p + n != 0 && goalEntropy == BinomialEntropy(log2, p as real / (p + n) as real)
    requires 1 <= lb < rb <= |values|
    requires forall k :: 0 <= k < |seen| ==> seen[k].rb <= |values|
    requires pLeft == PrefixTrue(values, rb) && nLeft == PrefixFalse(values, rb)
    requires Tracks(Gains(log2, p, n, values, seen), found, bestIndex, maxGain)
    requires BestSoFar(values, seen, found, bestIndex, threshold, bestLb, bestRb, pLeftBest, nLeftBest)
    ensures Tracks(Gains(log2, p, n, values, seen + [Boundary(lb, rb)]), found', bestIndex', maxGain')
    ensures BestSoFar(values, seen + [Boundary(lb, rb)], found', bestIndex', threshold', bestLb', bestRb', pLeftBest', nLeftBest')
  {
    found', bestIndex', maxGain' := found, bestIndex, maxGain;
    threshold', bestLb', bestRb', pLeftBest', nLeftBest' := threshold, bestLb, bestRb, pLeftBest, nLeftBest;
    ghost var b := Boundary(lb, rb);
    var pRight := p - pLeft;
    var nRight := n - nLeft;
    // the right-side ratio is 0/0 (NaN) when nothing lies right of the
    // boundary, and a NaN gain never exceeds maxGain
    if pRight + nRight != 0 {
      var sampleSize := p + n;
      var entropy := 0.0;
      entropy := entropy + WeightedEntropy(log2, pLeft, nLeft, sampleSize);   // left side (<=)
      entropy := entropy + WeightedEntropy(log2, pRight, nRight, sampleSize); // right side (>)
      var gain := goalEntropy - entropy;
      SplitGainValue(log2, p, n, values, b, pLeft, nLeft);
      if gain > maxGain {
        maxGain' := gain;
        threshold' := Midpoint(values[lb - 1].0, values[lb].0);
        bestLb', bestRb' := lb, rb;
        pLeftBest', nLeftBest' := pLeft, nLeft;
        found' := true;
        bestIndex' := |seen|;
      }
    } else {
      PrefixTotal(values, rb);
    }
    ConsiderStep(log2, p, n, values, seen, b, found, bestIndex, maxGain, found', bestIndex', maxGain');
  }

  /** The state of the scan before index `i`: the candidates before `i`
      are `seen`, the counts cover the prefix before `i`, and the best
      boundary so far is remembered. */
  ghost predicate ScanInv(log2: real -> real, p: int, n: int, values: seq<Observation>, i: nat, lastChange: bool,
                          seen: seq<Boundary>, pLeft: int, nLeft: int, found: bool, bestIndex: nat, maxGain: real,
                          threshold: real, bestLb: nat, bestRb: nat, pLeftBest: int, nLeftBest: int)
  {
    p + n != 0 && 1 <= i <= |values| &&
    Candidates(values) == seen + CandidatesFrom(values, i, lastChange) &&
    (forall k :: 0 <= k < |seen| ==> 1 <= seen[k].lb < seen[k].rb <= i) &&
    pLeft == PrefixTrue(values, i) && nLeft == PrefixFalse(values, i) &&
    Tracks(Gains(log2, p, n, values, seen), found, bestIndex, maxGain) &&
    BestSoFar(values, seen, found, bestIndex, threshold, bestLb, bestRb, pLeftBest, nLeftBest)
  }

  /** The scan starts after the first entry, with no candidate seen. */
  lemma ScanStart(log2: real -> real, p: int, n: int, values: seq<Observation>)
    requires |values| >= 2 && p + n != 0
    ensures var first := values[0].1;
      ScanInv(log2, p, n, values, 1, first, [], if first then 1 else 0, if first then 0 else 1,
              false, 0, MinDouble, 0.0, 0, 0, if first then 1 else 0, if first then 0 else 1)
  {
    assert PrefixTrue(values, 1) == PrefixTrue(values, 0) + (if values[0].1 then 1 else 0);
  }

  /** One iteration of bin's scan at index `i`: an entry whose label
      differs from the last change starts a candidate boundary, whose run
      of equal values the scan then skips. */
  method ScanStep(log2: real -> real, p: int, n: int, values: seq<Observation>, goalEntropy: real,
                  i: nat, lastChange: bool, ghost seen: seq<Boundary>, pLeft: int, nLeft: int,
                  found: bool, ghost bestIndex: nat, maxGain: real,
                  threshold: real, bestLb: nat, bestRb: nat, pLeftBest: int, nLeftBest: int)
    returns (i': nat, lastChange': bool, ghost seen': seq<Boundary>, pLeft': int, nLeft': int,
             found': bool, ghost bestIndex': nat, maxGain': real,
             threshold': real, bestLb': nat, bestRb': nat, pLeftBest': int, nLeftBest': int)
    requires p + n != 0 && goalEntropy == BinomialEntropy(log2, p as real / (p + n) as real)
    requires i < |values|
    requires ScanInv(log2, p, n, values, i, lastChange, seen, pLeft, nLeft, found, bestIndex, maxGain,
                     threshold, bestLb, bestRb, pLeftBest, nLeftBest)
    ensures i < i'
    ensures ScanInv(log2, p, n, values, i', lastChange', seen', pLeft', nLeft', found', bestIndex', maxGain',
                    threshold', bestLb', bestRb', pLeftBest', nLeftBest')
  {
    found', bestIndex', maxGain' := found, bestIndex, maxGain;
    threshold', bestLb', bestRb', pLeftBest', nLeftBest' := threshold, bestLb, bestRb, pLeftBest, nLeftBest;
    lastChange', seen' := lastChange, seen;
    var pair := values[i];
    pLeft', nLeft' := pLeft, nLeft;
    if pair.1 {
      pLeft' := pLeft' + 1;
    } else {
      nLeft' := nLeft' + 1;
    }
    if lastChange != pair.1 {
      var rb;
      rb, pLeft', nLeft', lastChange' := SkipRun(values, i, pLeft', nLeft', lastChange);
      CandidateStep(values, seen, i, lastChange, rb, lastChange');
      found', bestIndex', maxGain', threshold', bestLb', bestRb', pLeftBest', nLeftBest' :=
        ConsiderBoundary(log2, p, n, values, goalEntropy, seen, i, rb, pLeft', nLeft',
                         found, bestIndex, maxGain, threshold, bestLb, bestRb, pLeftBest, nLeftBest);
      seen' := seen + [Boundary(i, rb)];
      i' := rb;
    } else {
      SkipStep(values, seen, i, lastChange);
      i' := i + 1;
    }
  }

  /** The loop of bin's scan, run from the first entry to the end of the list. */
  method Scan(log2: real -> real, p: int, n: int, values: seq<Observation>, goalEntropy: real)
    returns (i: nat, lastChange: bool, ghost seen: seq<Boundary>, pLeft: int, nLeft: int,
             found: bool, ghost bestIndex: nat, maxGain: real,
             threshold: real, bestLb: nat, bestRb: nat, pLeftBest: int, nLeftBest: int)
    requires |values| >= 2 && p + n != 0
    requires goalEntropy == BinomialEntropy(log2, p as real / (p + n) as real)
    ensures i >= |values|
    ensures ScanInv(log2, p, n, values, i, lastChange, seen, pLeft, nLeft, found, bestIndex, maxGain,
                    threshold, bestLb, bestRb, pLeftBest, nLeftBest)
  {
    lastChange := values[0].1;
    maxGain := MinDouble;
    found := false;  // the source leaves the threshold NaN instead
    threshold := 0.0;
    pLeft := if lastChange then 1 else 0;
    nLeft := if lastChange then 0 else 1;
    bestLb, bestRb := 0, 0;
    pLeftBest, nLeftBest := pLeft, nLeft;
    seen := [];
    bestIndex := 0;
    i := 1;
    ScanStart(log2, p, n, values);
    while i < |values|
      invariant ScanInv(log2, p, n, values, i, lastChange, seen, pLeft, nLeft, found, bestIndex, maxGain,
                        threshold, bestLb, bestRb, pLeftBest, nLeftBest)
      decreases |values| - i
    {
      i, lastChange, seen, pLeft, nLeft, found, bestIndex, maxGain, threshold, bestLb, bestRb, pLeftBest, nLeftBest :=
        ScanStep(log2, p, n, values, goalEntropy, i, lastChange, seen, pLeft, nLeft,
                 found, bestIndex, maxGain, threshold, bestLb, bestRb, pLeftBest, nLeftBest);
    }
  }

  /** The search part of bin over a list of at least two entries: whether
      a boundary with gain above Double.MIN_VALUE exists, and if so the
      first one of greatest gain, its threshold and its left-side counts
      (which include the entries equal in value to the boundary). */
  method FindBestBoundary(log2: real -> real, p: int, n: int, values: seq<Observation>)
    returns (found: bool, threshold: real, bestLb: nat, bestRb: nat, pLeftBest: int, nLeftBest: int)
    requires |values| >= 2 && p + n != 0
    ensures found <==> BestBoundary(log2, p, n, values).Some?
    ensures found ==>
      BestBoundary(log2, p, n, values).value == Boundary(bestLb, bestRb) &&
      1 <= bestLb < bestRb <= |values| &&
      threshold == Midpoint(values[bestLb - 1].0, values[bestLb].0) &&
      pLeftBest == PrefixTrue(values, bestRb) && nLeftBest == PrefixFalse(values, bestRb)
  {
    var goalEntropy := BinomialEntropy(log2, p as real / (p + n) as real);
    var i, lastChange, pLeft, nLeft, maxGain;
    ghost var seen, bestIndex;
    i, lastChange, seen, pLeft, nLeft, found, bestIndex, maxGain, threshold, bestLb, bestRb, pLeftBest, nLeftBest :=
      Scan(log2, p, n, values, goalEntropy);
    ScanDone(log2, p, n, values, i, lastChange, seen, pLeft, nLeft, found, bestIndex, maxGain,
             threshold, bestLb, bestRb, pLeftBest, nLeftBest);
  }

  // ---------------------------------------------------------------------
  // Thresholds of a numeric attribute and bin lookup

  /** a <= b on doubles, with +infinity above every finite value. */
  predicate BoundLe(a: Bound, b: Bound)
  {
    b.Infinity? || (a.Finite? && a.t <= b.t)
  }

  function ToBounds(s: seq<real>): (r: seq<Bound>)
    ensures |r| == |s| && forall k :: 0 <= k < |s| ==> r[k] == Finite(s[k])
  {
    seq(|s|, k requires 0 <= k < |s| => Finite(s[k]))
  }

  /** discretiseAllNumericAttributes for one attribute: sort the
      observations by value, bin them with a fresh split counter and
      append the +infinity sentinel. */
  function Discretise(log2: real -> real, positives: int, negatives: int, observations: seq<Observation>)
    : seq<Bound>
  {
    ToBounds(BinSpec(ScanChooser(log2), 0, positives, negatives, SortByValue(observations)).0) + [Infinity]
  }

  /** A well-formed threshold list: finite ascending thresholds followed by
      the +infinity sentinel. */
  predicate WellFormedThresholds(r: seq<Bound>)
  {
    |r| >= 1 && r[|r| - 1] == Infinity &&
    (forall k :: 0 <= k < |r| - 1 ==> r[k].Finite?) &&
    (forall i, j :: 0 <= i < j < |r| ==> BoundLe(r[i], r[j]))
  }

  /** Every discretised attribute gets a well-formed threshold list, and each
      finite threshold lies between two observed values. */
  lemma DiscretiseWellFormed(log2: real -> real, positives: int, negatives: int, observations: seq<Observation>)
    ensures WellFormedThresholds(Discretise(log2, positives, negatives, observations))
    ensures var r := Discretise(log2, positives, negatives, observations);
      forall k :: 0 <= k < |r| - 1 ==>
        (exists i :: 0 <= i < |observations| && observations[i].0 <= r[k].t) &&
        (exists j :: 0 <= j < |observations| && r[k].t <= observations[j].0)
  {
    var sorted := SortByValue(observations);
    SortByValueCorrect(observations);
    var splits := BinSpec(ScanChooser(log2), 0, positives, negatives, sorted).0;
    if |sorted| > 0 {
      assert sorted[0] in multiset(observations);
      assert sorted[|sorted| - 1] in multiset(observations);
      var i :| 0 <= i < |observations| && observations[i] == sorted[0];
      var j :| 0 <= j < |observations| && observations[j] == sorted[|sorted| - 1];
      BinSpecOrdered(ScanChooser(log2), 0, positives, negatives, sorted, observations[i].0, observations[j].0);
      ThresholdsWellFormed(splits);
      ThresholdsObserved(splits, observations, i, j);
    } else {
      assert splits == [];
      ThresholdsWellFormed(splits);
    }
  }

  lemma ThresholdsWellFormed(s: seq<real>)
    requires Ascending(s)
    ensures WellFormedThresholds(ToBounds(s) + [Infinity])
  {
  }

  lemma ThresholdsObserved(s: seq<real>, observations: seq<Observation>, lo: nat, hi: nat)
    requires lo < |observations| && hi < |observations|
    requires Within(s, observations[lo].0, observations[hi].0)
    ensures var r := ToBounds(s) + [Infinity];
      forall k :: 0 <= k < |r| - 1 ==>
        (exists i :: 0 <= i < |observations| && observations[i].0 <= r[k].t) &&
        (exists j :: 0 <= j < |observations| && r[k].t <= observations[j].0)
  {
    var r := ToBounds(s) + [Infinity];
    forall k | 0 <= k < |r| - 1
      ensures (exists i :: 0 <= i < |observations| && observations[i].0 <= r[k].t) &&
        (exists j :: 0 <= j < |observations| && r[k].t <= observations[j].0)
    {
      assert observations[lo].0 <= r[k].t <= observations[hi].0;
    }
  }

  /** findBin's answer: the first position whose threshold is at or above
      `v`, or the last position (|ranges| - 1) when there is none. */
  function BinIndex(ranges: seq<Bound>, v: Bound): (r: int)
    ensures -1 <= r < |ranges|
    ensures (exists k :: 0 <= k < |ranges| && BoundLe(v, ranges[k])) ==>
      0 <= r && BoundLe(v, ranges[r]) && forall k :: 0 <= k < r ==> !BoundLe(v, ranges[k])
    ensures (forall k :: 0 <= k < |ranges| ==> !BoundLe(v, ranges[k])) ==> r == |ranges| - 1
  {
    BinIndexFrom(ranges, v, 0)
  }

  function BinIndexFrom(ranges: seq<Bound>, v: Bound, i: nat): (r: int)
    requires i <= |ranges|
    ensures -1 <= r < |ranges|
    ensures (exists k :: i <= k < |ranges| && BoundLe(v, ranges[k])) ==>
      i <= r && BoundLe(v, ranges[r]) && forall k :: i <= k < r ==> !BoundLe(v, ranges[k])
    ensures (forall k :: i <= k < |ranges| ==> !BoundLe(v, ranges[k])) ==> r == |ranges| - 1
    decreases |ranges| - i
  {
    if i == |ranges| then |ranges| - 1
    else if BoundLe(v, ranges[i]) then i
    else BinIndexFrom(ranges, v, i + 1)
  }

  /** findBin: an early-exit scan over the thresholds. */
  method FindBin(ranges: seq<Bound>, v: Bound) returns (i: int)
    ensures -1 <= i < |ranges|
    ensures (exists k :: 0 <= k < |ranges| && BoundLe(v, ranges[k])) ==>
      0 <= i && BoundLe(v, ranges[i]) && forall k :: 0 <= k < i ==> !BoundLe(v, ranges[k])
    ensures (forall k :: 0 <= k < |ranges| ==> !BoundLe(v, ranges[k])) ==> i == |ranges| - 1
    ensures i == BinIndex(ranges, v)
  {
    for k := 0 to |ranges|
      invariant forall m :: 0 <= m < k ==> !BoundLe(v, ranges[m])
    {
      if BoundLe(v, ranges[k]) {
        return k;
      }
    }
    return |ranges| - 1;
  }

  /** A larger value never lands in an earlier bin. */
  lemma BinIndexMonotone(ranges: seq<Bound>, a: Bound, b: Bound)
    requires BoundLe(a, b)
    ensures BinIndex(ranges, a) <= BinIndex(ranges, b)
  {
    var ib := BinIndex(ranges, b);
    if exists k :: 0 <= k < |ranges| && BoundLe(b, ranges[k]) {
      assert BoundLe(a, ranges[ib]);
    }
  }

  /** With a well-formed threshold list every finite value has a bin, and
      the bin is the interval (ranges[i-1], ranges[i]] holding it. */
  lemma BinIndexInterval(ranges: seq<Bound>, x: real, i: int)
    requires WellFormedThresholds(ranges)
    ensures 0 <= BinIndex(ranges, Finite(x)) < |ranges|
    ensures BinIndex(ranges, Finite(x)) == i <==>
      0 <= i < |ranges| && BoundLe(Finite(x), ranges[i]) && (i == 0 || !BoundLe(Finite(x), ranges[i - 1]))
  {
    assert BoundLe(Finite(x), ranges[|ranges| - 1]);
  }
}
