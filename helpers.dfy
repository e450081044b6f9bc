/** Shared value types and the three stateless helpers of the learner:
    majority vote, the "all examples share one class" test and the
    binomial entropy. */
module Helpers {

  /** A training or probe row: column name to the raw text of its cell. */
  type Example = map<string, string>

  /** Maps the raw text of the class column to "+" (true) or "-" (false). */
  type Classifier = string -> bool

  datatype Option<T> = None | Some(value: T)

  /** Every example has a cell for `column`. */
  predicate HasColumn(examples: seq<Example>, column: string)
  {
    forall i :: 0 <= i < |examples| ==> column in examples[i]
  }

  /** The class label of one example. */
  function IsPositive(classify: Classifier, classAttribute: string, ex: Example): bool
    requires classAttribute in ex
  {
    classify(ex[classAttribute])
  }

  /** Number of examples labelled "+". */
  function Positives(classify: Classifier, classAttribute: string, examples: seq<Example>): nat
    requires HasColumn(examples, classAttribute)
  {
    if examples == [] then 0
    else
      var init := examples[..|examples| - 1];
      assert HasColumn(init, classAttribute) by {
        forall i | 0 <= i < |init| ensures classAttribute in init[i] { assert init[i] == examples[i]; }
      }
      Positives(classify, classAttribute, init)
        + (if IsPositive(classify, classAttribute, examples[|examples| - 1]) then 1 else 0)
  }

  /** Number of examples labelled "-". */
  function Negatives(classify: Classifier, classAttribute: string, examples: seq<Example>): nat
    requires HasColumn(examples, classAttribute)
  {
    if examples == [] then 0
    else
      var init := examples[..|examples| - 1];
      assert HasColumn(init, classAttribute) by {
        forall i | 0 <= i < |init| ensures classAttribute in init[i] { assert init[i] == examples[i]; }
      }
      Negatives(classify, classAttribute, init)
        + (if IsPositive(classify, classAttribute, examples[|examples| - 1]) then 0 else 1)
  }

  /** Every example is counted exactly once, as "+" or as "-". */
  lemma {:induction false} PositivesPlusNegatives(classify: Classifier, classAttribute: string, examples: seq<Example>)
    requires HasColumn(examples, classAttribute)
    ensures Positives(classify, classAttribute, examples) + Negatives(classify, classAttribute, examples) == |examples|
  {
    if examples != [] {
      var init := examples[..|examples| - 1];
      assert HasColumn(init, classAttribute) by {
        forall i | 0 <= i < |init| ensures classAttribute in init[i] { assert init[i] == examples[i]; }
      }
      PositivesPlusNegatives(classify, classAttribute, init);
    }
  }

  /** `verdict` is a possible majority vote: "+" when "+" strictly outnumbers
      "-", "-" when "-" strictly outnumbers "+"; either one on a tie. */
  predicate IsMajorityLabel(classify: Classifier, classAttribute: string, examples: seq<Example>, verdict: bool)
    requires HasColumn(examples, classAttribute)
  {
    var p := Positives(classify, classAttribute, examples);
    var n := Negatives(classify, classAttribute, examples);
    (p > n ==> verdict) && (n > p ==> !verdict)
  }

  /** Majority vote over the class labels. The source breaks a tie with a
      shared random generator; here the coin is the parameter `tieBreak`. */
  method Majority(classify: Classifier, classAttribute: string, examples: seq<Example>, tieBreak: bool)
    returns (r: bool)
    requires HasColumn(examples, classAttribute)
    ensures IsMajorityLabel(classify, classAttribute, examples, r)
    ensures Positives(classify, classAttribute, examples) == Negatives(classify, classAttribute, examples)
      ==> r == tieBreak
  {
    var nPluses, nMinuses := 0, 0;
    for i := 0 to |examples|
      invariant HasColumn(examples[..i], classAttribute)
      invariant nPluses == Positives(classify, classAttribute, examples[..i])
      invariant nMinuses == Negatives(classify, classAttribute, examples[..i])
    {
      assert examples[..i + 1][..i] == examples[..i];
      if IsPositive(classify, classAttribute, examples[i]) {
        nPluses := nPluses + 1;
      } else {
        nMinuses := nMinuses + 1;
      }
    }
    assert examples[..|examples|] == examples;
    if nPluses > nMinuses {
      r := true;
    } else if nMinuses > nPluses {
      r := false;
    } else {
      r := tieBreak;
    }
  }

  /** All examples carry the class label of the first one (true of no examples). */
  predicate Homogeneous(classify: Classifier, classAttribute: string, examples: seq<Example>)
    requires HasColumn(examples, classAttribute)
  {
    forall i :: 0 <= i < |examples| ==>
      IsPositive(classify, classAttribute, examples[i]) == IsPositive(classify, classAttribute, examples[0])
  }

  /** Whether all examples share one class, and which. An empty list gives
      (true, false); a disagreement gives (false, false). */
  method SameClassification(classify: Classifier, classAttribute: string, examples: seq<Example>)
    returns (same: bool, positive: bool)
    requires HasColumn(examples, classAttribute)
    ensures same <==> Homogeneous(classify, classAttribute, examples)
    ensures same && examples != [] ==> positive == IsPositive(classify, classAttribute, examples[0])
    ensures !same || examples == [] ==> !positive
  {
    var classification := false;
    var first := true;
    for i := 0 to |examples|
      invariant first <==> i == 0
      invariant first ==> !classification
      invariant !first ==> classification == IsPositive(classify, classAttribute, examples[0])
      invariant forall k :: 0 <= k < i ==> IsPositive(classify, classAttribute, examples[k]) == classification
    {
      if first {
        classification := IsPositive(classify, classAttribute, examples[i]);
        first := false;
      } else if IsPositive(classify, classAttribute, examples[i]) != classification {
        return false, false;
      }
    }
    return true, classification;
  }

  /** Entropy in bits of a Bernoulli(q) variable. The source divides natural
      logarithms by ln 2; `log2` stands for that quotient. Exactly 0 at both
      ends of [0, 1]. */
  function BinomialEntropy(log2: real -> real, q: real): (r: real)
    ensures q == 0.0 || q == 1.0 ==> r == 0.0
  {
    if q == 0.0 || q == 1.0 then 0.0
    else -(log2(q) * q + (1.0 - q) * log2(1.0 - q))
  }

  /** Greedy running maximum: the position the source's scans keep, i.e. the
      first candidate whose value strictly exceeds `floor` and every value
      kept before it. None stands for a NaN value, which never compares
      greater. */
  function FirstMax(values: seq<Option<real>>, floor: real): (r: Option<nat>)
    ensures r.Some? ==> r.value < |values| && values[r.value].Some? && values[r.value].value > floor
    ensures r.Some? ==> forall j :: 0 <= j < r.value && values[j].Some? ==> values[j].value < values[r.value].value
    ensures r.Some? ==> forall j :: r.value < j < |values| && values[j].Some? ==> values[j].value <= values[r.value].value
    ensures r.None? <==> forall j :: 0 <= j < |values| && values[j].Some? ==> values[j].value <= floor
  {
    if values == [] then None
    else
      var init := values[..|values| - 1];
      var last := values[|values| - 1];
      var prev := FirstMax(init, floor);
      var best := if prev.Some? then init[prev.value].value else floor;
      if last.Some? && last.value > best then Some(|values| - 1)
      else
        assert forall j :: 0 <= j < |init| ==> init[j] == values[j];
        prev
  }
}
