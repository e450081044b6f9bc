/** The greedy depth-first decision-tree learner (DepthFirstTree): the tree
    is grown from a list of training rows by repeatedly splitting on the
    attribute of highest information gain, pruned bottom-up by a
    chi-squared test, and walked to classify a new row. */
module Trees {
  import opened Helpers
  import opened Binning
  import opened Attributes

  /** Above this many domain values, importance is estimated on a random
      subset of this many values (MULTIVALUE_THRESHOLD). */
  const MultivalueThreshold := 10

  /** The pruning test "delta < chi-squared quantile at 1 - significance"
      as a predicate of the node's class counts (p, n), the per-value
      class counts and the degrees of freedom: true means the split is not
      significant and the node may collapse. */
  type CollapseTest = (int, int, seq<(int, int)>, int) -> bool

  // ---------------------------------------------------------------------
  // Counting examples

  /** CSVRecord.get: the cell of a column, IllegalArgument if the record
      has no such column. */
  function Cell(ex: Example, column: string): Result<string>
  {
    if column in ex then Ok(ex[column]) else Err(IllegalArgument)
  }

  /** Whether an example is counted: always without a filter, otherwise
      when its cell for the filter's attribute is contained in the filter's
      value. */
  function Selects(av: AttributeSet, ex: Example, filter: Option<(string, Datum)>): Result<bool>
    reads av`processed, av`discretised
  {
    match filter
    case None => Ok(true)
    case Some((attribute, value)) =>
      match Cell(ex, attribute)
      case Err(f) => Err(f)
      case Ok(s) => av.ContainedIn(attribute, s, value)
  }

  /** _getExampleDistribution: the numbers of "+" and "-" examples among
      the selected ones, or the first failure met scanning the list. */
  function Distribution(av: AttributeSet, classify: Classifier, classAttribute: string,
                        examples: seq<Example>, filter: Option<(string, Datum)>): (r: Result<(int, int)>)
    reads av`processed, av`discretised
    ensures r.Ok? ==> 0 <= r.value.0 && 0 <= r.value.1 && r.value.0 + r.value.1 <= |examples|
    ensures r.Ok? && filter.None? ==> r.value.0 + r.value.1 == |examples|
    decreases |examples|
  {
    if examples == [] then Ok((0, 0))
    else
      var ex := examples[|examples| - 1];
      match Distribution(av, classify, classAttribute, examples[..|examples| - 1], filter)
      case Err(f) => Err(f)
      case Ok((p, n)) =>
        match Selects(av, ex, filter)
        case Err(f) => Err(f)
        case Ok(false) => Ok((p, n))
        case Ok(true) =>
          match Cell(ex, classAttribute)
          case Err(f) => Err(f)
          case Ok(c) => if classify(c) then Ok((p + 1, n)) else Ok((p, n + 1))
  }

  /** The sub-examples of a split: the examples whose cell for `attribute`
      is contained in `value`, in their original order. */
  function Matching(av: AttributeSet, examples: seq<Example>, attribute: string, value: Datum)
    : Result<seq<Example>>
    reads av`processed, av`discretised
    decreases |examples|
  {
    if examples == [] then Ok([])
    else
      var ex := examples[|examples| - 1];
      match Matching(av, examples[..|examples| - 1], attribute, value)
      case Err(f) => Err(f)
      case Ok(sub) =>
        match Selects(av, ex, Some((attribute, value)))
        case Err(f) => Err(f)
        case Ok(b) => Ok(if b then sub + [ex] else sub)
  }

  lemma HasColumnInit(examples: seq<Example>, column: string)
    requires examples != [] && HasColumn(examples, column)
    ensures HasColumn(examples[..|examples| - 1], column)
  {
    var init := examples[..|examples| - 1];
    forall i | 0 <= i < |init| ensures column in init[i] { assert init[i] == examples[i]; }
  }

  /** Counting without a filter counts the "+" and "-" examples. */
  lemma {:induction false} DistributionOfAll(av: AttributeSet, classify: Classifier, classAttribute: string,
                                             examples: seq<Example>)
    requires HasColumn(examples, classAttribute)
    ensures Distribution(av, classify, classAttribute, examples, None) ==
      Ok((Positives(classify, classAttribute, examples), Negatives(classify, classAttribute, examples)))
  {
    if examples != [] {
      HasColumnInit(examples, classAttribute);
      DistributionOfAll(av, classify, classAttribute, examples[..|examples| - 1]);
    }
  }

  /** Counting with a value filter fails exactly when selecting the
      sub-examples fails, and otherwise counts the "+" and "-" examples
      among them: the counts of a value are the class counts of its
      subtree's examples. */
  lemma {:induction false} DistributionOfMatching(av: AttributeSet, classify: Classifier, classAttribute: string,
                                                  examples: seq<Example>, attribute: string, value: Datum)
    requires HasColumn(examples, classAttribute)
    ensures var d := Distribution(av, classify, classAttribute, examples, Some((attribute, value)));
      var m := Matching(av, examples, attribute, value);
      (d.Ok? <==> m.Ok?) &&
      (m.Ok? ==> HasColumn(m.value, classAttribute) &&
                 d.value == (Positives(classify, classAttribute, m.value), Negatives(classify, classAttribute, m.value)))
  {
    if examples != [] {
      var init, ex := examples[..|examples| - 1], examples[|examples| - 1];
      HasColumnInit(examples, classAttribute);
      DistributionOfMatching(av, classify, classAttribute, init, attribute, value);
      assert Cell(ex, classAttribute) == Ok(ex[classAttribute]);
      var m := Matching(av, init, attribute, value);
      var s := Selects(av, ex, Some((attribute, value)));
      if m.Ok? && s.Ok? {
        if s.value {
          CountsSnoc(classify, classAttribute, m.value, ex);
          assert Matching(av, examples, attribute, value) == Ok(m.value + [ex]);
        } else {
          assert Matching(av, examples, attribute, value) == Ok(m.value);
        }
      }
    }
  }

  /** Appending one example keeps the class column and adds its class to
      the counts. */
  lemma CountsSnoc(classify: Classifier, classAttribute: string, sub: seq<Example>, ex: Example)
    requires HasColumn(sub, classAttribute) && classAttribute in ex
    ensures HasColumn(sub + [ex], classAttribute)
    ensures Positives(classify, classAttribute, sub + [ex]) ==
      Positives(classify, classAttribute, sub) + (if classify(ex[classAttribute]) then 1 else 0)
    ensures Negatives(classify, classAttribute, sub + [ex]) ==
      Negatives(classify, classAttribute, sub) + (if classify(ex[classAttribute]) then 0 else 1)
  {
    var all := sub + [ex];
    assert all[..|all| - 1] == sub && all[|all| - 1] == ex;
    assert HasColumn(all, classAttribute) by {
      forall i | 0 <= i < |all| ensures classAttribute in all[i] {
        if i < |sub| { assert all[i] == sub[i]; }
      }
    }
  }

  /** The per-value class counts of a list of domain values, in order. */
  function Counts(av: AttributeSet, classify: Classifier, classAttribute: string,
                  examples: seq<Example>, attribute: string, values: seq<Datum>): (r: Result<seq<(int, int)>>)
    reads av`processed, av`discretised
    ensures r.Ok? ==> |r.value| == |values|
    decreases |values|
  {
    if values == [] then Ok([])
    else
      match Counts(av, classify, classAttribute, examples, attribute, values[..|values| - 1])
      case Err(f) => Err(f)
      case Ok(counts) =>
        match Distribution(av, classify, classAttribute, examples, Some((attribute, values[|values| - 1])))
        case Err(f) => Err(f)
        case Ok(pn) => Ok(counts + [pn])
  }

  /** The scores of an attribute order leave exactly the class column
      unscored. */
  ghost predicate MarksClass(importances: seq<Option<real>>, order: seq<string>, classAttribute: string)
    requires |importances| <= |order|
  {
    forall k :: 0 <= k < |importances| ==> (importances[k].None? <==> order[k] == classAttribute)
  }

  lemma MarksClassSnoc(importances: seq<Option<real>>, order: seq<string>, classAttribute: string, x: Option<real>)
    requires |importances| < |order| && MarksClass(importances, order, classAttribute)
    requires x.None? <==> order[|importances|] == classAttribute
    ensures MarksClass(importances + [x], order, classAttribute)
  {
    var after := importances + [x];
    forall k | 0 <= k < |after| ensures after[k].None? <==> order[k] == classAttribute {
      if k < |importances| { assert after[k] == importances[k]; }
    }
  }

  /** The prefix one longer ends with the next example. */
  lemma PrefixStep<T>(xs: seq<T>, i: nat)
    requires i < |xs|
    ensures |xs[..i + 1]| == i + 1 && xs[..i + 1][..i] == xs[..i] && xs[..i + 1][i] == xs[i]
  {
  }

  /** Counting one more example: a failure selecting or reading it is the
      result, an unselected one changes nothing, a selected one adds its
      class. */
  lemma DistributionStep(av: AttributeSet, classify: Classifier, classAttribute: string,
                         examples: seq<Example>, filter: Option<(string, Datum)>, i: nat, p: int, n: int)
    requires i < |examples|
    requires Distribution(av, classify, classAttribute, examples[..i], filter) == Ok((p, n))
    ensures var d := Distribution(av, classify, classAttribute, examples[..i + 1], filter);
      var s := Selects(av, examples[i], filter);
      var c := Cell(examples[i], classAttribute);
      (s.Err? ==> d == Err(s.failure)) &&
      (s == Ok(false) ==> d == Ok((p, n))) &&
      (s == Ok(true) && c.Err? ==> d == Err(c.failure)) &&
      (s == Ok(true) && c.Ok? ==> d == if classify(c.value) then Ok((p + 1, n)) else Ok((p, n + 1)))
  {
    PrefixStep(examples, i);
  }

  /** A failure on a prefix of the examples is the failure of the whole
      scan: the loops stop at the first exception. */
  lemma {:induction false} DistributionFailureSticks(av: AttributeSet, classify: Classifier, classAttribute: string,
                                                     examples: seq<Example>, filter: Option<(string, Datum)>, i: nat)
    requires i <= |examples| && Distribution(av, classify, classAttribute, examples[..i], filter).Err?
    ensures Distribution(av, classify, classAttribute, examples, filter) ==
      Distribution(av, classify, classAttribute, examples[..i], filter)
    decreases |examples| - i
  {
    if i < |examples| {
      assert examples[..i + 1][..i] == examples[..i];
      DistributionFailureSticks(av, classify, classAttribute, examples, filter, i + 1);
    } else {
      assert examples[..i] == examples;
    }
  }

  lemma {:induction false} MatchingFailureSticks(av: AttributeSet, examples: seq<Example>, attribute: string,
                                                 value: Datum, i: nat)
    requires i <= |examples| && Matching(av, examples[..i], attribute, value).Err?
    ensures Matching(av, examples, attribute, value) == Matching(av, examples[..i], attribute, value)
    decreases |examples| - i
  {
    if i < |examples| {
      assert examples[..i + 1][..i] == examples[..i];
      MatchingFailureSticks(av, examples, attribute, value, i + 1);
    } else {
      assert examples[..i] == examples;
    }
  }

  /** One value of the remainder loop: a failing distribution is the
      failure of the whole count, otherwise the counts grow by one. */
  lemma CountsStep(av: AttributeSet, classify: Classifier, classAttribute: string, examples: seq<Example>,
                   attribute: string, values: seq<Datum>, i: nat, counts: seq<(int, int)>, d: Result<(int, int)>)
    requires i < |values| && Counts(av, classify, classAttribute, examples, attribute, values[..i]) == Ok(counts)
    requires d == Distribution(av, classify, classAttribute, examples, Some((attribute, values[i])))
    ensures d.Err? ==> Counts(av, classify, classAttribute, examples, attribute, values) == Err(d.failure)
    ensures d.Ok? ==> Counts(av, classify, classAttribute, examples, attribute, values[..i + 1]) == Ok(counts + [d.value])
  {
    assert values[..i + 1][..i] == values[..i];
    if d.Err? {
      CountsFailureSticks(av, classify, classAttribute, examples, attribute, values, i + 1);
    }
  }

  lemma {:induction false} CountsFailureSticks(av: AttributeSet, classify: Classifier, classAttribute: string,
                                               examples: seq<Example>, attribute: string, values: seq<Datum>, i: nat)
    requires i <= |values| && Counts(av, classify, classAttribute, examples, attribute, values[..i]).Err?
    ensures Counts(av, classify, classAttribute, examples, attribute, values) ==
      Counts(av, classify, classAttribute, examples, attribute, values[..i])
    decreases |values| - i
  {
    if i < |values| {
      assert values[..i + 1][..i] == values[..i];
      CountsFailureSticks(av, classify, classAttribute, examples, attribute, values, i + 1);
    } else {
      assert values[..i] == values;
    }
  }

  // ---------------------------------------------------------------------
  // Information gain

  /** The expected entropy left after a split with per-value counts
      `counts`, out of p + n examples; values no example takes (0 / 0, a
      NaN in the source) add nothing. */
  function Remainder(log2: real -> real, p: int, n: int, counts: seq<(int, int)>): real
    requires p + n != 0
    decreases |counts|
  {
    if counts == [] then 0.0
    else
      var (pk, nk) := counts[|counts| - 1];
      Remainder(log2, p, n, counts[..|counts| - 1]) + Share(log2, p, n, pk, nk)
  }

  /** The entropy of one value's examples weighted by their share. */
  function Share(log2: real -> real, p: int, n: int, pk: int, nk: int): real
    requires p + n != 0
  {
    if pk + nk == 0 then 0.0
    else ((pk + nk) as real / (p + n) as real) * BinomialEntropy(log2, pk as real / (pk + nk) as real)
  }

  lemma RemainderSnoc(log2: real -> real, p: int, n: int, counts: seq<(int, int)>, pk: int, nk: int)
    requires p + n != 0
    ensures Remainder(log2, p, n, counts + [(pk, nk)]) == Remainder(log2, p, n, counts) + Share(log2, p, n, pk, nk)
  {
    assert (counts + [(pk, nk)])[..|counts|] == counts;
  }

  /** getImportance: entropy of the class minus the remainder. */
  function Importance(log2: real -> real, p: int, n: int, counts: seq<(int, int)>): real
    requires p + n != 0
  {
    Gain(log2, p, n, Remainder(log2, p, n, counts))
  }

  /** The class entropy of p + n examples less a remainder. */
  function Gain(log2: real -> real, p: int, n: int, remainder: real): real
    requires p + n != 0
  {
    BinomialEntropy(log2, p as real / (p + n) as real) - remainder
  }

  /** A split whose every value is pure (holds one class only) leaves no
      entropy: its gain is the whole entropy of the class. */
  lemma DivSelf(x: real)
    requires x != 0.0
    ensures x / x == 1.0
  {
  }

  lemma {:induction false} PureSplitFullGain(log2: real -> real, p: int, n: int, counts: seq<(int, int)>)
    requires p + n != 0
    requires forall k :: 0 <= k < |counts| ==> counts[k].0 == 0 || counts[k].1 == 0
    ensures Remainder(log2, p, n, counts) == 0.0
    ensures Importance(log2, p, n, counts) == BinomialEntropy(log2, p as real / (p + n) as real)
    decreases |counts|
  {
    if counts != [] {
      var (pk, nk) := counts[|counts| - 1];
      PureSplitFullGain(log2, p, n, counts[..|counts| - 1]);
      if pk + nk != 0 {
        assert pk == 0 || nk == 0;
        if pk == 0 {
          assert pk as real / (pk + nk) as real == 0.0;
        } else {
          assert pk + nk == pk;
          DivSelf(pk as real);
        }
      }
    }
  }

  /** A split in which one value holds every example gains nothing. */
  lemma UninformativeSplitNoGain(log2: real -> real, p: nat, n: nat)
    requires p + n != 0
    ensures Importance(log2, p, n, [(p, n)]) == 0.0
  {
    var h := BinomialEntropy(log2, p as real / (p + n) as real);
    assert [(p, n)][..0] == [];
    DivSelf((p + n) as real);
    assert Remainder(log2, p, n, [(p, n)]) == Remainder(log2, p, n, []) + 1.0 * h;
  }

  /** The values whose class counts estimate the gain of `attribute`, given
      the categorical domain lists `domains`: the first MultivalueThreshold
      of the domain (after the shuffle that produced `domains`) when it is
      larger than that, the whole domain otherwise. An attribute that is
      neither categorical nor numeric has a null domain. */
  function ValueSubset(av: AttributeSet, domains: map<string, seq<string>>, attribute: string): Result<seq<Datum>>
    reads av`processed, av`discretised
  {
    if attribute in domains then
      var list := domains[attribute];
      Ok(Texts(if |list| > MultivalueThreshold then list[..MultivalueThreshold] else list))
    else if !av.processed then Err(NullPointer)
    else if attribute in av.discretised then
      var list := av.discretised[attribute];
      Ok(Numbers(if |list| > MultivalueThreshold then list[..MultivalueThreshold] else list))
    else Err(NullPointer)
  }

  /** The importance the learner computes for `attribute` on `examples` when
      the categorical domains are `domains`. */
  function ImportanceOf(av: AttributeSet, domains: map<string, seq<string>>, classify: Classifier,
                        classAttribute: string, attribute: string, examples: seq<Example>): Result<real>
    requires examples != []
    reads av`processed, av`discretised
  {
    match Distribution(av, classify, classAttribute, examples, None)
    case Err(f) => Err(f)
    case Ok((p, n)) =>
      match ValueSubset(av, domains, attribute)
      case Err(f) => Err(f)
      case Ok(subset) =>
        match Counts(av, classify, classAttribute, examples, attribute, subset)
        case Err(f) => Err(f)
        case Ok(counts) => Ok(Importance(av.log2, p, n, counts))
  }

  /** The importance of an attribute depends on the categorical domains only
      through its own list, so shuffling another domain leaves it alone. */
  lemma ImportanceOfLocal(av: AttributeSet, before: map<string, seq<string>>, after: map<string, seq<string>>,
                          classify: Classifier, classAttribute: string, attribute: string, examples: seq<Example>)
    requires examples != []
    requires attribute in before <==> attribute in after
    requires attribute in before ==> before[attribute] == after[attribute]
    ensures ImportanceOf(av, before, classify, classAttribute, attribute, examples)
         == ImportanceOf(av, after, classify, classAttribute, attribute, examples)
  {
  }

  /** The scan of buildDecisionTree over `names` on `examples`: `order`
      lists each attribute once, the class attribute is the one left
      unscored, and every attribute scored so far has the importance
      ImportanceOf gives it on the domain lists `domains`. */
  ghost predicate ImportanceScan(av: AttributeSet, domains: map<string, seq<string>>, classify: Classifier,
                                 classAttribute: string, examples: seq<Example>, names: set<string>,
                                 order: seq<string>, importances: seq<Option<real>>)
    requires examples != []
    reads av`processed, av`discretised
  {
    Distinct(order) && (forall a :: a in order <==> a in names) && |importances| <= |order| &&
    MarksClass(importances, order, classAttribute) &&
    Scored(av, domains, classify, classAttribute, examples, order, importances)
  }

  /** `after` differs from `before` at most in the list of `attribute`. */
  ghost predicate ShuffledAt(before: map<string, seq<string>>, after: map<string, seq<string>>, attribute: string)
  {
    if attribute in before then attribute in after && after == before[attribute := after[attribute]]
    else after == before
  }

  lemma ShuffledAtUnchanged(m: map<string, seq<string>>, attribute: string)
    ensures ShuffledAt(m, m, attribute)
  {
    if attribute in m {
      assert m == m[attribute := m[attribute]];
    }
  }

  /** Every scored attribute among the first |importances| of `order` has the
      importance ImportanceOf gives it; the class attribute is left unscored. */
  ghost predicate Scored(av: AttributeSet, domains: map<string, seq<string>>, classify: Classifier,
                         classAttribute: string, examples: seq<Example>, order: seq<string>,
                         importances: seq<Option<real>>)
    requires examples != [] && |importances| <= |order|
    reads av`processed, av`discretised
  {
    forall k :: 0 <= k < |importances| && order[k] != classAttribute ==>
      ImportanceOf(av, domains, classify, classAttribute, order[k], examples).Ok? &&
      importances[k] == Some(ImportanceOf(av, domains, classify, classAttribute, order[k], examples).value)
  }

  /** Reshuffling the domain of an attribute not yet scored keeps the scores. */
  lemma ScoredFrame(av: AttributeSet, before: map<string, seq<string>>, after: map<string, seq<string>>,
                    classify: Classifier, classAttribute: string, examples: seq<Example>,
                    order: seq<string>, importances: seq<Option<real>>)
    requires examples != [] && |importances| < |order| && Distinct(order)
    requires Scored(av, before, classify, classAttribute, examples, order, importances)
    requires ShuffledAt(before, after, order[|importances|])
    ensures Scored(av, after, classify, classAttribute, examples, order, importances)
  {
    forall k | 0 <= k < |importances| && order[k] != classAttribute
      ensures ImportanceOf(av, after, classify, classAttribute, order[k], examples).Ok? &&
        importances[k] == Some(ImportanceOf(av, after, classify, classAttribute, order[k], examples).value)
    {
      assert order[k] != order[|importances|];
      ImportanceOfLocal(av, before, after, classify, classAttribute, order[k], examples);
    }
  }

  /** A scored attribute has a domain: a categorical list or, once
      processed, a list of thresholds. */
  lemma ScoredHasDomain(av: AttributeSet, domains: map<string, seq<string>>, classify: Classifier,
                        classAttribute: string, examples: seq<Example>, order: seq<string>,
                        importances: seq<Option<real>>, k: nat)
    requires examples != [] && |importances| <= |order|
    requires Scored(av, domains, classify, classAttribute, examples, order, importances)
    requires k < |importances| && order[k] != classAttribute
    ensures order[k] in domains || (av.processed && order[k] in av.discretised)
  {
    assert ImportanceOf(av, domains, classify, classAttribute, order[k], examples).Ok?;
  }

  /** Scoring the next attribute of `order` extends the scores. */
  lemma ScoredSnoc(av: AttributeSet, domains: map<string, seq<string>>, classify: Classifier,
                   classAttribute: string, examples: seq<Example>, order: seq<string>,
                   importances: seq<Option<real>>, x: Option<real>)
    requires examples != [] && |importances| < |order|
    requires Scored(av, domains, classify, classAttribute, examples, order, importances)
    requires order[|importances|] != classAttribute ==>
      x.Some? && ImportanceOf(av, domains, classify, classAttribute, order[|importances|], examples) == Ok(x.value)
    ensures Scored(av, domains, classify, classAttribute, examples, order, importances + [x])
  {
    var all := importances + [x];
    forall k | 0 <= k < |all| && order[k] != classAttribute
      ensures ImportanceOf(av, domains, classify, classAttribute, order[k], examples).Ok? &&
        all[k] == Some(ImportanceOf(av, domains, classify, classAttribute, order[k], examples).value)
    {
      if k < |importances| {
        assert all[k] == importances[k];
      }
    }
  }

  /** The witness of a child: one of the first `i` values has label `l`
      and selects exactly `examples`. */
  ghost predicate Witnessed(labels: seq<Result<Label>>, parts: seq<Result<seq<Example>>>, i: nat,
                            l: Label, examples: seq<Example>)
  {
    exists j :: 0 <= j < i && j < |labels| && j < |parts| && labels[j] == Ok(l) && parts[j] == Ok(examples)
  }

  /** The edge label of each value, in order. */
  ghost function EdgeLabels(av: AttributeSet, attribute: string, values: seq<Datum>): seq<Result<Label>>
    reads av`processed, av`discretised
  {
    if values == [] then []
    else EdgeLabels(av, attribute, values[..|values| - 1]) + [av.GetLabel(attribute, values[|values| - 1])]
  }

  lemma {:induction false} EdgeLabelsAt(av: AttributeSet, attribute: string, values: seq<Datum>)
    ensures |EdgeLabels(av, attribute, values)| == |values|
    ensures forall j :: 0 <= j < |values| ==> EdgeLabels(av, attribute, values)[j] == av.GetLabel(attribute, values[j])
    decreases |values|
  {
    if values != [] {
      EdgeLabelsAt(av, attribute, values[..|values| - 1]);
    }
  }

  /** The sub-examples of each value, in order. */
  ghost function Partitions(av: AttributeSet, examples: seq<Example>, attribute: string, values: seq<Datum>)
    : seq<Result<seq<Example>>>
    reads av`processed, av`discretised
  {
    if values == [] then []
    else Partitions(av, examples, attribute, values[..|values| - 1]) + [Matching(av, examples, attribute, values[|values| - 1])]
  }

  lemma {:induction false} PartitionsAt(av: AttributeSet, examples: seq<Example>, attribute: string, values: seq<Datum>)
    ensures |Partitions(av, examples, attribute, values)| == |values|
    ensures forall j :: 0 <= j < |values| ==>
      Partitions(av, examples, attribute, values)[j] == Matching(av, examples, attribute, values[j])
    decreases |values|
  {
    if values != [] {
      PartitionsAt(av, examples, attribute, values[..|values| - 1]);
    }
  }

  /** The label and the sub-examples of one value of that list. */
  lemma BranchAt(av: AttributeSet, examples: seq<Example>, attribute: string, values: seq<Datum>, i: nat)
    requires i < |values|
    ensures i < |EdgeLabels(av, attribute, values)| && EdgeLabels(av, attribute, values)[i] == av.GetLabel(attribute, values[i])
    ensures i < |Partitions(av, examples, attribute, values)| &&
      Partitions(av, examples, attribute, values)[i] == Matching(av, examples, attribute, values[i])
  {
    EdgeLabelsAt(av, attribute, values);
    PartitionsAt(av, examples, attribute, values);
  }

  /** Two states of the categorical domains that differ at most in the
      order of each list. */
  ghost predicate Reordered(before: map<string, seq<string>>, after: map<string, seq<string>>)
  {
    after.Keys == before.Keys &&
    forall a :: a in after ==> multiset(after[a]) == multiset(before[a])
  }

  /** The number of "+" votes of a ballot, and of the others. */
  function Pluses(ballot: map<Label, bool>): nat
  {
    |set l | l in ballot && ballot[l]|
  }

  function Minuses(ballot: map<Label, bool>): nat
  {
    |set l | l in ballot && !ballot[l]|
  }

  /** The number of labels of `order` whose vote is `v`. */
  function Tally(ballot: map<Label, bool>, order: seq<Label>, v: bool): nat
    requires forall l :: l in order ==> l in ballot
  {
    if order == [] then 0
    else Tally(ballot, order[..|order| - 1], v) + (if ballot[order[|order| - 1]] == v then 1 else 0)
  }

  /** The labels of `order` whose vote is `v`. */
  ghost function Voters(ballot: map<Label, bool>, order: seq<Label>, v: bool): set<Label>
    requires forall l :: l in order ==> l in ballot
  {
    set l | l in order && ballot[l] == v
  }

  /** Appending one label to `order` adds it to the voters exactly when
      its vote is `v`. */
  lemma VotersSnoc(ballot: map<Label, bool>, init: seq<Label>, last: Label, v: bool)
    requires last in ballot && forall l :: l in init ==> l in ballot
    ensures Voters(ballot, init + [last], v) == Voters(ballot, init, v) + (if ballot[last] == v then {last} else {})
  {
    var after := Voters(ballot, init + [last], v);
    var before := Voters(ballot, init, v);
    forall l | l in after
      ensures l in before || l == last
    {
      assert l in init || l == last;
    }
  }

  /** Counting the labels of a duplicate-free order one by one counts
      the set of those with vote `v`. */
  lemma {:induction false} TallyCountsSet(ballot: map<Label, bool>, order: seq<Label>, v: bool)
    requires Distinct(order) && forall l :: l in order ==> l in ballot
    ensures Tally(ballot, order, v) == |Voters(ballot, order, v)|
  {
    if order != [] {
      var init, last := order[..|order| - 1], order[|order| - 1];
      assert order == init + [last];
      assert Distinct(init);
      TallyCountsSet(ballot, init, v);
      assert last !in Voters(ballot, init, v);
      VotersSnoc(ballot, init, last, v);
    }
  }

  lemma ReorderedTransitive(x: map<string, seq<string>>, y: map<string, seq<string>>, z: map<string, seq<string>>)
    requires Reordered(x, y) && Reordered(y, z)
    ensures Reordered(x, z)
  {
  }

  /** `v` is one of the values get lists for `attribute`; stated on the
      multiset of a categorical list, so reordering keeps it. */
  ghost predicate InDomain(av: AttributeSet, attribute: string, v: Datum)
    reads av
  {
    if attribute in av.stringValues then v.Text? && v.s in multiset(av.stringValues[attribute])
    else av.processed && attribute in av.discretised && v.Number? && v.b in av.discretised[attribute]
  }

  /** The values get lists are exactly those InDomain describes. */
  lemma InDomainGet(av: AttributeSet, attribute: string)
    requires av.Get(attribute).Ok? && av.Get(attribute).value.Some?
    ensures forall v :: v in av.Get(attribute).value.value <==> InDomain(av, attribute, v)
  {
    var list := av.Get(attribute).value.value;
    forall v | InDomain(av, attribute, v) ensures v in list {
      if attribute in av.stringValues {
        var i :| 0 <= i < |av.stringValues[attribute]| && av.stringValues[attribute][i] == v.s;
        assert list[i] == v;
      } else {
        var i :| 0 <= i < |av.discretised[attribute]| && av.discretised[attribute][i] == v.b;
        assert list[i] == v;
      }
    }
  }

  /** The leaf text of a class: "+" or "-". */
  function Sign(positive: bool): string
  {
    if positive then "+" else "-"
  }

  // ---------------------------------------------------------------------
  // The tree

  class DepthFirstTree {
    /** The attributes (column names, class column included) this subtree
        may still split on. */
    const attributeNames: set<string>
    const classAttribute: string
    const classify: Classifier
    /** The training examples that reach this node. */
    const allExamples: seq<Example>
    /** The attribute domains, shared by every node of a tree. */
    const attributeValues: AttributeSet
    /** The pruning test at the tree's significance level. */
    const accept: CollapseTest
    /** Subtrees by edge label; empty for a leaf. */
    var children: map<Label, DepthFirstTree>
    /** The split attribute of an inner node, "+" or "-" at a leaf. */
    var rootAttribute: string
    ghost var Repr: set<DepthFirstTree>

    /** A child agrees with its parent on everything but the attributes,
        which lose the parent's split attribute. */
    ghost predicate Inherits(c: DepthFirstTree)
      reads this
    {
      c.attributeValues == attributeValues && c.classAttribute == classAttribute &&
      c.classify == classify && c.accept == accept &&
      c.attributeNames == attributeNames - {rootAttribute}
    }

    /** The tree invariant: the children own disjoint parts of the
        footprint, and an inner node splits on one of its attributes other
        than the class. */
    ghost predicate Valid()
      reads this, Repr
      decreases Repr
    {
      this in Repr &&
      (forall l :: l in children ==>
        children[l] in Repr && children[l].Repr <= Repr && this !in children[l].Repr &&
        children[l].Valid() && Inherits(children[l])) &&
      (forall l, m :: l in children && m in children && l != m ==> children[l].Repr !! children[m].Repr) &&
      (children != map[] ==> rootAttribute in attributeNames && rootAttribute != classAttribute)
    }

    /** The node fields the private constructor sets before building;
        rootAttribute starts out null, written "". */
    constructor Init(names: set<string>, classAttribute: string, classify: Classifier, examples: seq<Example>,
                     av: AttributeSet, accept: CollapseTest)
      ensures attributeNames == names && this.classAttribute == classAttribute && this.classify == classify
      ensures allExamples == examples && attributeValues == av && this.accept == accept
      ensures children == map[] && rootAttribute == "" && Repr == {this}
    {
      attributeNames := names;
      this.classAttribute := classAttribute;
      this.classify := classify;
      allExamples := examples;
      attributeValues := av;
      this.accept := accept;
      children := map[];
      rootAttribute := "";
      Repr := {this};
    }

    /** The children of a node split on `a`: every domain value of `a`
        labels some child, and every child holds the examples contained
        in a domain value that carries its label. */
    ghost predicate SplitOn(a: string)
      reads this, attributeValues
    {
      var av := attributeValues;
      (forall v :: InDomain(av, a, v) ==> av.GetLabel(a, v).Ok? && av.GetLabel(a, v).value in children) &&
      (forall l :: l in children ==>
        exists v :: InDomain(av, a, v) && av.GetLabel(a, v) == Ok(l) &&
                    Matching(av, allExamples, a, v) == Ok(children[l].allExamples))
    }

    /** A child that no example reaches is a leaf voting this node's
        majority (the parent examples of its build). */
    ghost predicate EmptyBranchesVote()
      requires HasColumn(allExamples, classAttribute)
      reads this, children.Values
    {
      Votes(children)
    }

    ghost predicate Votes(kids: map<Label, DepthFirstTree>)
      requires HasColumn(allExamples, classAttribute)
      reads kids.Values
    {
      forall l :: l in kids && kids[l].allExamples == [] ==>
        kids[l].children == map[] && (kids[l].rootAttribute == "+" || kids[l].rootAttribute == "-") &&
        IsMajorityLabel(classify, classAttribute, allExamples, kids[l].rootAttribute == "+")
    }

    // -------------------------------------------------------------------
    // Building

    /** buildDecisionTree: no examples give a leaf voting the parent's
        majority, examples of one class a leaf of that class; otherwise
        the node splits on the most important attribute, with one subtree
        per distinct edge label. Where no attribute is selected the node
        becomes a majority leaf (the source throws there). The ghost
        outputs record the scan: the attributes in iteration order, their
        importances, and the domain lists those importances were computed
        on. */
    method BuildDecisionTree(parentExamples: seq<Example>)
      returns (failure: Option<Failure>, ghost order: seq<string>, ghost importances: seq<Option<real>>,
               ghost domains: map<string, seq<string>>)
      requires children == map[] && Repr == {this}
      requires HasColumn(allExamples, classAttribute) && HasColumn(parentExamples, classAttribute)
      requires attributeValues.Valid()
      modifies this`children, this`rootAttribute, this`Repr, attributeValues`stringValues
      decreases |attributeNames|, 7
      ensures attributeValues.Valid() && Reordered(old(attributeValues.stringValues), attributeValues.stringValues)
      ensures failure.None? ==> Valid() && fresh(Repr - {this})
      ensures allExamples == [] ==>
        failure.None? && children == map[] && (rootAttribute == "+" || rootAttribute == "-") &&
        IsMajorityLabel(classify, classAttribute, parentExamples, rootAttribute == "+")
      ensures allExamples != [] && Homogeneous(classify, classAttribute, allExamples) ==>
        failure.None? && children == map[] && rootAttribute == Sign(IsPositive(classify, classAttribute, allExamples[0]))
      ensures allExamples != [] && !Homogeneous(classify, classAttribute, allExamples) ==>
        Reordered(old(attributeValues.stringValues), domains) &&
        ImportanceScan(attributeValues, domains, classify, classAttribute, allExamples, attributeNames, order, importances)
      ensures failure.None? && allExamples != [] && !Homogeneous(classify, classAttribute, allExamples) ==>
        |importances| == |order| &&
        (FirstMax(importances, MinDouble).None? ==>
           children == map[] && (rootAttribute == "+" || rootAttribute == "-") &&
           IsMajorityLabel(classify, classAttribute, allExamples, rootAttribute == "+")) &&
        (FirstMax(importances, MinDouble).Some? ==>
           FirstMax(importances, MinDouble).value < |order| &&
           rootAttribute == order[FirstMax(importances, MinDouble).value] &&
           rootAttribute in attributeNames && rootAttribute != classAttribute &&
           SplitOn(rootAttribute) && EmptyBranchesVote())
    {
      failure := None;
      order, importances, domains := [], [], attributeValues.stringValues;
      if allExamples == [] {
        var coin: bool :| true;
        var majority := Majority(classify, classAttribute, parentExamples, coin);
        rootAttribute := Sign(majority);
        return;
      }
      var same, positive := SameClassification(classify, classAttribute, allExamples);
      if same {
        rootAttribute := Sign(positive);
        return;
      }
      if attributeNames == {} {
        var coin: bool :| true;
        var majority := Majority(classify, classAttribute, allExamples, coin);
        rootAttribute := Sign(majority);
        return;
      }
      failure, order, importances, domains := SplitOnBest();
    }

    /** The informative case of buildDecisionTree: the scan of
        SelectAttribute picks the split attribute, whose domain values
        grow the children; with nothing selected the node becomes a
        majority leaf. */
    method SplitOnBest()
      returns (failure: Option<Failure>, ghost order: seq<string>, ghost importances: seq<Option<real>>,
               ghost domains: map<string, seq<string>>)
      requires children == map[] && Repr == {this}
      requires allExamples != [] && HasColumn(allExamples, classAttribute) && attributeValues.Valid()
      modifies this`children, this`rootAttribute, this`Repr, attributeValues`stringValues
      decreases |attributeNames|, 6
      ensures attributeValues.Valid() && Reordered(old(attributeValues.stringValues), attributeValues.stringValues)
      ensures failure.None? ==> Valid() && fresh(Repr - {this})
      ensures Reordered(old(attributeValues.stringValues), domains) &&
        ImportanceScan(attributeValues, domains, classify, classAttribute, allExamples, attributeNames, order, importances)
      ensures failure.None? ==>
        |importances| == |order| &&
        (FirstMax(importances, MinDouble).None? ==>
           children == map[] && (rootAttribute == "+" || rootAttribute == "-") &&
           IsMajorityLabel(classify, classAttribute, allExamples, rootAttribute == "+")) &&
        (FirstMax(importances, MinDouble).Some? ==>
           FirstMax(importances, MinDouble).value < |order| &&
           rootAttribute == order[FirstMax(importances, MinDouble).value] &&
           rootAttribute in attributeNames && rootAttribute != classAttribute &&
           SplitOn(rootAttribute) && EmptyBranchesVote())
    {
      failure := None;
      var chosen;
      chosen, order, importances := SelectAttribute(allExamples);
      domains := attributeValues.stringValues;
      if chosen.Err? {
        failure := Some(chosen.failure);
        return;
      }
      if chosen.value.None? {
        var coin: bool :| true;
        var majority := Majority(classify, classAttribute, allExamples, coin);
        rootAttribute := Sign(majority);
        return;
      }
      var k := FirstMax(importances, MinDouble).value;
      assert order[k] in order;
      // the selected attribute was scored, so it has a domain
      ScoredHasDomain(attributeValues, domains, classify, classAttribute, allExamples, order, importances, k);
      failure := SplitOnChosen(chosen.value.value, domains, order, importances);
    }

    /** The split of buildDecisionTree on the selected attribute `a`: the
        root is labelled with it and its domain values grow the children. */
    method SplitOnChosen(a: string, ghost domains: map<string, seq<string>>, ghost order: seq<string>,
                         ghost importances: seq<Option<real>>)
      returns (failure: Option<Failure>)
      requires a in attributeNames && a != classAttribute
      requires children == map[] && Repr == {this}
      requires HasColumn(allExamples, classAttribute) && attributeValues.Valid()
      requires a in attributeValues.stringValues || (attributeValues.processed && a in attributeValues.discretised)
      requires allExamples != [] &&
        ImportanceScan(attributeValues, domains, classify, classAttribute, allExamples, attributeNames, order, importances)
      modifies this`children, this`rootAttribute, this`Repr, attributeValues`stringValues
      decreases |attributeNames|, 5
      ensures attributeValues.Valid() && Reordered(old(attributeValues.stringValues), attributeValues.stringValues)
      ensures ImportanceScan(attributeValues, domains, classify, classAttribute, allExamples, attributeNames, order, importances)
      ensures rootAttribute == a
      ensures failure.None? ==> Valid() && fresh(Repr - {this}) && SplitOn(a) && EmptyBranchesVote()
    {
      rootAttribute := a;
      var valueList := attributeValues.Get(a);
      InDomainGet(attributeValues, a);
      failure := GrowChildren(a, valueList.value.value);
    }

    /** The first `i` domain values are handled: each has a label, which
        keys a child in `kids`; each child holds the examples of one of
        them with its label; and the children no example reaches vote
        this node's majority. `labels` and `parts` are the labels and
        sub-examples of the values, fixed before the loop. */
    ghost predicate Grown(labels: seq<Result<Label>>, parts: seq<Result<seq<Example>>>, i: nat,
                          kids: map<Label, DepthFirstTree>)
      requires HasColumn(allExamples, classAttribute)
      reads kids.Values
    {
      i <= |labels| == |parts| && Votes(kids) &&
      (forall j :: 0 <= j < i ==> labels[j].Ok? && labels[j].value in kids) &&
      (forall l :: l in kids ==> Witnessed(labels, parts, i, l, kids[l].allExamples))
    }

    /** A value whose label is already handled leaves the children as
        they are. */
    lemma GrownSkip(labels: seq<Result<Label>>, parts: seq<Result<seq<Example>>>, i: nat,
                    kids: map<Label, DepthFirstTree>)
      requires HasColumn(allExamples, classAttribute) && i < |labels| && Grown(labels, parts, i, kids)
      requires labels[i].Ok? && labels[i].value in kids
      ensures Grown(labels, parts, i + 1, kids)
    {
      forall l | l in kids
        ensures Witnessed(labels, parts, i + 1, l, kids[l].allExamples)
      {
        var j :| 0 <= j < i && j < |labels| && j < |parts| && labels[j] == Ok(l) && parts[j] == Ok(kids[l].allExamples);
      }
    }

    /** A value with a new label adds the subtree of its examples. */
    lemma GrownAdd(labels: seq<Result<Label>>, parts: seq<Result<seq<Example>>>, i: nat,
                   kids: map<Label, DepthFirstTree>, subtree: DepthFirstTree)
      requires HasColumn(allExamples, classAttribute) && i < |labels| && Grown(labels, parts, i, kids)
      requires labels[i].Ok? && labels[i].value !in kids && parts[i] == Ok(subtree.allExamples)
      requires subtree.allExamples == [] ==>
        subtree.children == map[] && (subtree.rootAttribute == "+" || subtree.rootAttribute == "-") &&
        IsMajorityLabel(classify, classAttribute, allExamples, subtree.rootAttribute == "+")
      ensures Grown(labels, parts, i + 1, kids[labels[i].value := subtree])
    {
      var l := labels[i].value;
      var after := kids[l := subtree];
      forall m | m in after
        ensures Witnessed(labels, parts, i + 1, m, after[m].allExamples)
      {
        if m != l {
          var j :| 0 <= j < i && j < |labels| && j < |parts| && labels[j] == Ok(m) && parts[j] == Ok(kids[m].allExamples);
        }
      }
    }

    /** The loop of buildDecisionTree over the domain of the split
        attribute: the first value with a new label gets a subtree built
        from the examples contained in it, with this node's examples as
        its parent examples. */
    method GrowChildren(a: string, values: seq<Datum>) returns (failure: Option<Failure>)
      requires a in attributeNames && a != classAttribute && rootAttribute == a
      requires children == map[] && Repr == {this}
      requires HasColumn(allExamples, classAttribute) && attributeValues.Valid()
      requires forall v :: v in values <==> InDomain(attributeValues, a, v)
      modifies this`children, this`Repr, attributeValues`stringValues
      decreases |attributeNames|, 4
      ensures attributeValues.Valid() && Reordered(old(attributeValues.stringValues), attributeValues.stringValues)
      ensures failure.None? ==> Valid() && fresh(Repr - {this}) && SplitOn(a) && EmptyBranchesVote()
    {
      var av := attributeValues;
      ghost var labels := EdgeLabels(av, a, values);
      ghost var parts := Partitions(av, allExamples, a, values);
      PartitionsAt(av, allExamples, a, values);
      EdgeLabelsAt(av, a, values);
      failure := GrowAll(a, values, labels, parts);
      if failure.None? {
        forall v
          ensures v in values <==> InDomain(av, a, v)
        {
          assert v in values <==> old(InDomain(av, a, v));
        }
        GrownSplitOn(a, values, labels, parts);
      }
    }

    /** The loop itself: each round handles one value. */
    method GrowAll(a: string, values: seq<Datum>, ghost labels: seq<Result<Label>>,
                   ghost parts: seq<Result<seq<Example>>>) returns (failure: Option<Failure>)
      requires a in attributeNames && a != classAttribute && rootAttribute == a
      requires children == map[] && Repr == {this}
      requires HasColumn(allExamples, classAttribute) && attributeValues.Valid()
      requires labels == EdgeLabels(attributeValues, a, values)
      requires parts == Partitions(attributeValues, allExamples, a, values) && |labels| == |parts| == |values|
      modifies this`children, this`Repr, attributeValues`stringValues
      decreases |attributeNames|, 3
      ensures attributeValues.Valid() && Reordered(old(attributeValues.stringValues), attributeValues.stringValues)
      ensures labels == EdgeLabels(attributeValues, a, values)
      ensures parts == Partitions(attributeValues, allExamples, a, values)
      ensures failure.None? ==> Valid() && fresh(Repr - {this}) && Grown(labels, parts, |values|, children)
    {
      failure := None;
      var av := attributeValues;
      var handledLabels: set<Label> := {};
      var i := 0;
      while i < |values| && failure.None?
        invariant 0 <= i <= |values|
        invariant av.Valid() && Reordered(old(av.stringValues), av.stringValues)
        invariant labels == EdgeLabels(av, a, values) && parts == Partitions(av, allExamples, a, values)
        invariant failure.None? ==> handledLabels == children.Keys && Valid() && fresh(Repr - {this})
        invariant failure.None? ==> Grown(labels, parts, i, children)
      {
        ghost var before := av.stringValues;
        failure, handledLabels := Branch(a, values, i, handledLabels, labels, parts);
        ReorderedTransitive(old(av.stringValues), before, av.stringValues);
        i := i + 1;
      }
    }

    /** Once every value of the domain of `a` is handled, the children
        split on `a`. */
    lemma GrownSplitOn(a: string, values: seq<Datum>, labels: seq<Result<Label>>, parts: seq<Result<seq<Example>>>)
      requires HasColumn(allExamples, classAttribute)
      requires forall v :: v in values <==> InDomain(attributeValues, a, v)
      requires labels == EdgeLabels(attributeValues, a, values)
      requires parts == Partitions(attributeValues, allExamples, a, values)
      requires Grown(labels, parts, |values|, children)
      ensures SplitOn(a)
    {
      var av := attributeValues;
      PartitionsAt(av, allExamples, a, values);
      EdgeLabelsAt(av, a, values);
      forall v | InDomain(av, a, v)
        ensures av.GetLabel(a, v).Ok? && av.GetLabel(a, v).value in children
      {
        var j :| 0 <= j < |values| && values[j] == v;
      }
      forall l | l in children
        ensures exists v :: InDomain(av, a, v) && av.GetLabel(a, v) == Ok(l) &&
                            Matching(av, allExamples, a, v) == Ok(children[l].allExamples)
      {
        assert Witnessed(labels, parts, |values|, l, children[l].allExamples);
        var j :| 0 <= j < |values| && j < |labels| && j < |parts| && labels[j] == Ok(l) &&
                 parts[j] == Ok(children[l].allExamples);
        assert values[j] in values;
      }
    }

    /** One round of that loop, for values[i]. */
    method Branch(a: string, values: seq<Datum>, i: nat, handledLabels: set<Label>,
                  ghost labels: seq<Result<Label>>, ghost parts: seq<Result<seq<Example>>>)
      returns (failure: Option<Failure>, handled: set<Label>)
      requires a in attributeNames && a != classAttribute && rootAttribute == a && i < |values|
      requires HasColumn(allExamples, classAttribute) && attributeValues.Valid()
      requires labels == EdgeLabels(attributeValues, a, values)
      requires parts == Partitions(attributeValues, allExamples, a, values)
      requires Valid() && handledLabels == children.Keys && Grown(labels, parts, i, children)
      modifies this`children, this`Repr, attributeValues`stringValues
      decreases |attributeNames|, 2
      ensures attributeValues.Valid() && Reordered(old(attributeValues.stringValues), attributeValues.stringValues)
      ensures failure.None? ==>
        Valid() && handled == children.Keys && Grown(labels, parts, i + 1, children) && fresh(Repr - old(Repr))
    {
      var av := attributeValues;
      handled := handledLabels;
      var valueLabel := av.GetLabel(a, values[i]);
      BranchAt(av, allExamples, a, values, i);
      if valueLabel.Err? {
        failure := Some(valueLabel.failure);
      } else if valueLabel.value in handled {
        GrownSkip(labels, parts, i, children);
        failure := None;
      } else {
        handled := handled + {valueLabel.value};
        var subExamples := SubExamples(a, values[i]);
        if subExamples.Err? {
          failure := Some(subExamples.failure);
        } else {
          DistributionOfMatching(av, classify, classAttribute, allExamples, a, values[i]);
          failure := NewBranch(a, i, valueLabel.value, subExamples.value, labels, parts);
        }
      }
    }

    /** The subtree of values[i], whose label `l` is new, added under `l`. */
    method NewBranch(a: string, i: nat, l: Label, subExamples: seq<Example>,
                     ghost labels: seq<Result<Label>>, ghost parts: seq<Result<seq<Example>>>)
      returns (failure: Option<Failure>)
      requires a in attributeNames && a != classAttribute && rootAttribute == a
      requires HasColumn(allExamples, classAttribute) && attributeValues.Valid()
      requires Valid() && i < |labels| && Grown(labels, parts, i, children)
      requires labels[i] == Ok(l) && l !in children && parts[i] == Ok(subExamples)
      requires HasColumn(subExamples, classAttribute)
      modifies this`children, this`Repr, attributeValues`stringValues
      decreases |attributeNames|, 1
      ensures attributeValues.Valid() && Reordered(old(attributeValues.stringValues), attributeValues.stringValues)
      ensures failure.None? ==>
        Valid() && children.Keys == old(children).Keys + {l} && Grown(labels, parts, i + 1, children) &&
        fresh(Repr - old(Repr))
    {
      var subtree;
      failure, subtree := Subtree(a, subExamples);
      if failure.Some? {
        return;
      }
      Attach(i, l, subtree, labels, parts);
    }

    /** children.put(l, subtree) in that loop. */
    method Attach(i: nat, l: Label, subtree: DepthFirstTree,
                  ghost labels: seq<Result<Label>>, ghost parts: seq<Result<seq<Example>>>)
      requires rootAttribute in attributeNames && rootAttribute != classAttribute
      requires HasColumn(allExamples, classAttribute)
      requires Valid() && i < |labels| && Grown(labels, parts, i, children)
      requires labels[i] == Ok(l) && l !in children && parts[i] == Ok(subtree.allExamples)
      requires subtree.Valid() && subtree.Repr !! Repr && Inherits(subtree)
      requires subtree.allExamples == [] ==>
        subtree.children == map[] && (subtree.rootAttribute == "+" || subtree.rootAttribute == "-") &&
        IsMajorityLabel(classify, classAttribute, allExamples, subtree.rootAttribute == "+")
      modifies this`children, this`Repr
      ensures Valid() && children.Keys == old(children).Keys + {l} && Grown(labels, parts, i + 1, children)
      ensures Repr == old(Repr) + subtree.Repr
    {
      ghost var after := children[l := subtree];
      GrownAdd(labels, parts, i, children, subtree);
      assert this !in after.Values by {
        assert subtree in subtree.Repr;
        forall m | m in children ensures children[m] != this {
          assert children[m] in children[m].Repr;
        }
      }
      AddChild(l, subtree);
      assert children == after;
    }

    /** The recursive constructor call for the branch of `a` holding
        `subExamples`, with this node's examples as the parent examples. */
    method Subtree(a: string, subExamples: seq<Example>) returns (failure: Option<Failure>, subtree: DepthFirstTree)
      requires a in attributeNames && attributeValues.Valid()
      requires HasColumn(subExamples, classAttribute) && HasColumn(allExamples, classAttribute)
      modifies attributeValues`stringValues
      decreases |attributeNames|, 0
      ensures attributeValues.Valid() && Reordered(old(attributeValues.stringValues), attributeValues.stringValues)
      ensures fresh(subtree) && subtree.allExamples == subExamples
      ensures subtree.attributeNames == attributeNames - {a} && subtree.attributeValues == attributeValues
      ensures subtree.classAttribute == classAttribute && subtree.classify == classify && subtree.accept == accept
      ensures failure.None? ==> subtree.Valid() && fresh(subtree.Repr)
      ensures failure.None? && subExamples == [] ==>
        subtree.children == map[] && (subtree.rootAttribute == "+" || subtree.rootAttribute == "-") &&
        IsMajorityLabel(classify, classAttribute, allExamples, subtree.rootAttribute == "+")
    {
      subtree := new DepthFirstTree.Init(attributeNames - {a}, classAttribute, classify, subExamples, attributeValues, accept);
      ghost var order, importances, domains;
      failure, order, importances, domains := subtree.BuildDecisionTree(allExamples);
    }

    /** children.put for a fresh subtree under a new label. */
    method AddChild(l: Label, subtree: DepthFirstTree)
      requires Valid() && l !in children && rootAttribute != classAttribute && rootAttribute in attributeNames
      requires subtree.Valid() && subtree.Repr !! Repr && Inherits(subtree)
      modifies this`children, this`Repr
      ensures Valid() && children == old(children)[l := subtree] && Repr == old(Repr) + subtree.Repr
    {
      ghost var kids := children;
      children := children[l := subtree];
      Repr := Repr + subtree.Repr;
      forall m | m in children
        ensures children[m] in Repr && children[m].Repr <= Repr && this !in children[m].Repr
        ensures children[m].Valid() && Inherits(children[m])
      {
        if m != l {
          assert m in kids && children[m] == kids[m];
        }
      }
      forall m, n | m in children && n in children && m != n
        ensures children[m].Repr !! children[n].Repr
      {
        if m != l && n != l {
          assert m in kids && n in kids;
        }
      }
    }

    // -------------------------------------------------------------------
    // Counting and importance

    /** _getExampleDistribution (and its two public wrappers). */
    method ExampleDistribution(examples: seq<Example>, filter: Option<(string, Datum)>) returns (r: Result<(int, int)>)
      ensures r == Distribution(attributeValues, classify, classAttribute, examples, filter)
    {
      var av := attributeValues;
      var p, n := 0, 0;
      var failure: Option<Failure> := None;
      var i := 0;
      while i < |examples| && failure.None?
        invariant 0 <= i <= |examples|
        invariant failure.None? ==> Distribution(av, classify, classAttribute, examples[..i], filter) == Ok((p, n))
        invariant failure.Some? ==> Distribution(av, classify, classAttribute, examples[..i], filter) == Err(failure.value)
      {
        DistributionStep(av, classify, classAttribute, examples, filter, i, p, n);
        var counted := Selects(av, examples[i], filter);
        if counted.Err? {
          failure := Some(counted.failure);
        } else if counted.value {
          var c := Cell(examples[i], classAttribute);
          if c.Err? {
            failure := Some(c.failure);
          } else if classify(c.value) {
            p := p + 1;
          } else {
            n := n + 1;
          }
        }
        i := i + 1;
      }
      if failure.Some? {
        DistributionFailureSticks(av, classify, classAttribute, examples, filter, i);
        r := Err(failure.value);
      } else {
        assert examples[..i] == examples;
        r := Ok((p, n));
      }
    }

    /** The inner loop of buildDecisionTree collecting the examples of one
        domain value. */
    method SubExamples(attribute: string, value: Datum) returns (r: Result<seq<Example>>)
      ensures r == Matching(attributeValues, allExamples, attribute, value)
    {
      var subExamples := [];
      for i := 0 to |allExamples|
        invariant Matching(attributeValues, allExamples[..i], attribute, value) == Ok(subExamples)
      {
        assert allExamples[..i + 1][..i] == allExamples[..i];
        var selected := Selects(attributeValues, allExamples[i], Some((attribute, value)));
        if selected.Err? {
          MatchingFailureSticks(attributeValues, allExamples, attribute, value, i + 1);
          return Err(selected.failure);
        }
        if selected.value {
          subExamples := subExamples + [allExamples[i]];
        }
      }
      assert allExamples[..|allExamples|] == allExamples;
      return Ok(subExamples);
    }

    /** getImportance: the information gain of `attribute` on `examples`,
        estimated on a shuffled prefix of a large domain. */
    method GetImportance(attribute: string, examples: seq<Example>) returns (r: Result<real>)
      requires examples != [] && attributeValues.Valid()
      modifies attributeValues`stringValues
      ensures attributeValues.Valid() && Reordered(old(attributeValues.stringValues), attributeValues.stringValues)
      ensures ShuffledAt(old(attributeValues.stringValues), attributeValues.stringValues, attribute)
      ensures r == ImportanceOf(attributeValues, attributeValues.stringValues, classify, classAttribute, attribute, examples)
    {
      var av := attributeValues;
      var pair := ExampleDistribution(examples, None);
      if pair.Err? {
        ShuffledAtUnchanged(av.stringValues, attribute);
        return Err(pair.failure);
      }
      var p, n := pair.value.0, pair.value.1;
      var valueSubset := ChooseValues(attribute);
      if valueSubset.Err? {
        return Err(valueSubset.failure);
      }
      var remainder := RemainderOver(examples, attribute, valueSubset.value, p, n);
      if remainder.Err? {
        return Err(remainder.failure);
      }
      return Ok(Gain(av.log2, p, n, remainder.value));
    }

    /** The values getImportance counts: a shuffled prefix of a domain
        larger than MultivalueThreshold, the whole domain otherwise. */
    method ChooseValues(attribute: string) returns (r: Result<seq<Datum>>)
      requires attributeValues.Valid()
      modifies attributeValues`stringValues
      ensures attributeValues.Valid() && Reordered(old(attributeValues.stringValues), attributeValues.stringValues)
      ensures ShuffledAt(old(attributeValues.stringValues), attributeValues.stringValues, attribute)
      ensures r == ValueSubset(attributeValues, attributeValues.stringValues, attribute)
    {
      var av := attributeValues;
      var size := av.Size(attribute);
      if size.Err? {
        return Err(size.failure);
      }
      var valueSubset: seq<Datum>;
      if size.value > MultivalueThreshold {
        av.Shuffle(attribute);
        assert attribute in av.stringValues ==> |av.stringValues[attribute]| == |multiset(av.stringValues[attribute])|;
        var sublist := av.GetSublist(attribute, MultivalueThreshold);
        if sublist.Err? {
          return Err(sublist.failure);
        }
        valueSubset := sublist.value;
      } else {
        var all := av.Get(attribute);
        if !(all.Ok? && all.value.Some?) {
          // size succeeded, so get did too and returned null
          return Err(NullPointer);
        }
        valueSubset := all.value.value;
      }
      return Ok(valueSubset);
    }

    /** The greedy choice of buildDecisionTree: the first attribute, in
        the map's iteration order `order`, whose importance strictly beats
        every earlier one and the initial Double.MIN_VALUE; None where the
        source leaves maxAttribute at "". The class column is skipped (a
        None importance); every other attribute scored has the importance
        ImportanceOf gives it on the final domain lists. A failing
        importance stops the scan: `importances` then ends just before the
        attribute whose importance failed. */
    method SelectAttribute(examples: seq<Example>)
      returns (r: Result<Option<string>>, order: seq<string>, ghost importances: seq<Option<real>>)
      requires examples != [] && attributeValues.Valid()
      modifies attributeValues`stringValues
      ensures attributeValues.Valid() && Reordered(old(attributeValues.stringValues), attributeValues.stringValues)
      ensures ImportanceScan(attributeValues, attributeValues.stringValues, classify, classAttribute, examples,
                             attributeNames, order, importances)
      ensures r.Ok? ==>
        |importances| == |order| &&
        (FirstMax(importances, MinDouble).None? ==> r.value.None?) &&
        (FirstMax(importances, MinDouble).Some? ==> r.value == Some(order[FirstMax(importances, MinDouble).value]))
      ensures r.Err? ==>
        |importances| < |order| && order[|importances|] != classAttribute &&
        ImportanceOf(attributeValues, attributeValues.stringValues, classify, classAttribute,
                     order[|importances|], examples) == Err(r.failure)
    {
      var av := attributeValues;
      order := Enumerate(attributeNames);
      importances := [];
      var maxAttribute: Option<string> := None;
      var maxImportance := MinDouble;
      ghost var best: nat := 0;
      var i := 0;
      while i < |order|
        invariant 0 <= i <= |order| && |importances| == i
        invariant av.Valid() && Reordered(old(av.stringValues), av.stringValues)
        invariant MarksClass(importances, order, classAttribute)
        invariant Scored(av, av.stringValues, classify, classAttribute, examples, order, importances)
        invariant Tracks(importances, maxAttribute.Some?, best, maxImportance)
        invariant maxAttribute.Some? ==> best < i && maxAttribute == Some(order[best])
      {
        ghost var before := av.stringValues;
        var next := ScoreNext(examples, order, i, importances);
        ReorderedTransitive(old(av.stringValues), before, av.stringValues);
        if next.Err? {
          return Err(next.failure), order, importances;
        }
        var x := next.value;
        TracksSnoc(importances, maxAttribute.Some?, best, maxImportance, x);
        MarksClassSnoc(importances, order, classAttribute, x);
        importances := importances + [x];
        if x.Some? && x.value > maxImportance {
          maxImportance := x.value;
          maxAttribute := Some(order[i]);
          best := i;
        }
        i := i + 1;
      }
      r := Ok(maxAttribute);
    }

    /** One step of buildDecisionTree's scan: the importance of the next
        attribute of `order`, None for the class column. */
    method ScoreNext(examples: seq<Example>, order: seq<string>, i: nat, ghost importances: seq<Option<real>>)
      returns (r: Result<Option<real>>)
      requires examples != [] && attributeValues.Valid()
      requires i == |importances| < |order| && Distinct(order)
      requires Scored(attributeValues, attributeValues.stringValues, classify, classAttribute, examples, order, importances)
      modifies attributeValues`stringValues
      ensures attributeValues.Valid() && Reordered(old(attributeValues.stringValues), attributeValues.stringValues)
      ensures r.Ok? ==>
        (r.value.None? <==> order[|importances|] == classAttribute) &&
        Scored(attributeValues, attributeValues.stringValues, classify, classAttribute, examples, order,
               importances + [r.value])
      ensures r.Err? ==>
        order[|importances|] != classAttribute &&
        ImportanceOf(attributeValues, attributeValues.stringValues, classify, classAttribute,
                     order[|importances|], examples) == Err(r.failure) &&
        Scored(attributeValues, attributeValues.stringValues, classify, classAttribute, examples, order, importances)
    {
      var av := attributeValues;
      var attribute := order[i];
      if attribute == classAttribute {
        ScoredSnoc(av, av.stringValues, classify, classAttribute, examples, order, importances, None);
        return Ok(None);
      }
      ghost var before := av.stringValues;
      var importance := GetImportance(attribute, examples);
      ScoredFrame(av, before, av.stringValues, classify, classAttribute, examples, order, importances);
      if importance.Err? {
        return Err(importance.failure);
      }
      ScoredSnoc(av, av.stringValues, classify, classAttribute, examples, order, importances, Some(importance.value));
      return Ok(Some(importance.value));
    }

    /** The split domain of buildDecisionTree as written: the split
        attribute is maxAttribute, still "" when no attribute was selected,
        and its domain list is iterated without a null check. */
    function SplitDomainAsWritten(chosen: Option<string>): Result<seq<Datum>>
      reads attributeValues
    {
      var maxAttribute := if chosen.Some? then chosen.value else "";
      match attributeValues.Get(maxAttribute)
      case Err(f) => Err(f)
      case Ok(None) => Err(NullPointer)
      case Ok(Some(values)) => Ok(values)
    }

    /** When every attribute gains nothing (UninformativeSplitNoGain: for
        instance, examples that agree on every attribute and disagree on
        the class), no importance beats Double.MIN_VALUE, nothing is
        selected, and the source's split throws NullPointer on the domain
        of "" (BuildDecisionTree makes a majority leaf instead). */
    lemma NoGainThrowsAsWritten(importances: seq<Option<real>>)
      requires forall k :: 0 <= k < |importances| && importances[k].Some? ==> importances[k].value == 0.0
      requires attributeValues.processed
      requires "" !in attributeValues.stringValues && "" !in attributeValues.discretised
      ensures FirstMax(importances, MinDouble).None?
      ensures SplitDomainAsWritten(None) == Err(NullPointer)
    {
    }

    /** The remainder loop of getImportance over the chosen values. */
    method RemainderOver(examples: seq<Example>, attribute: string, values: seq<Datum>, p: int, n: int)
      returns (r: Result<real>)
      requires p + n != 0
      ensures var counts := Counts(attributeValues, classify, classAttribute, examples, attribute, values);
        (counts.Err? ==> r == Err(counts.failure)) &&
        (counts.Ok? ==> r == Ok(Remainder(attributeValues.log2, p, n, counts.value)))
    {
      var av := attributeValues;
      var remainder := 0.0;
      ghost var counts := [];
      var failure: Option<Failure> := None;
      var i := 0;
      while i < |values| && failure.None?
        invariant 0 <= i <= |values|
        invariant failure.None? ==>
          Counts(av, classify, classAttribute, examples, attribute, values[..i]) == Ok(counts) &&
          remainder == Remainder(av.log2, p, n, counts)
        invariant failure.Some? ==> Counts(av, classify, classAttribute, examples, attribute, values) == Err(failure.value)
        decreases |values| - i, if failure.None? then 1 else 0
      {
        var tmp := ExampleDistribution(examples, Some((attribute, values[i])));
        CountsStep(av, classify, classAttribute, examples, attribute, values, i, counts, tmp);
        if tmp.Err? {
          failure := Some(tmp.failure);
        } else {
          var pk, nk := tmp.value.0, tmp.value.1;
          RemainderSnoc(av.log2, p, n, counts, pk, nk);
          counts := counts + [(pk, nk)];
          remainder := remainder + Share(av.log2, p, n, pk, nk);
          i := i + 1;
        }
      }
      if failure.Some? {
        r := Err(failure.value);
      } else {
        assert values[..|values|] == values;
        r := Ok(remainder);
      }
    }

    // -------------------------------------------------------------------
    // Prediction

    /** _predict: a leaf answers whether its class is "+"; an inner node
        follows the edge labelled with the input's value of its split
        attribute. A missing value and a label without an edge are the
        null dereferences of the source. */
    function PredictFrom(input: map<string, string>): (r: Result<bool>)
      requires Valid()
      reads Repr, attributeValues`processed, attributeValues`discretised
      decreases Repr
      ensures r.Ok? ==> exists t :: t in Repr && t.children == map[] && r.value == (t.rootAttribute == "+")
      ensures r.Err? ==> r.failure in {NullPointer, NumberFormat, IndexOutOfBounds}
    {
      if children == map[] then Ok(rootAttribute == "+")
      else if rootAttribute !in input then Err(NullPointer)
      else
        match attributeValues.GetLabel(rootAttribute, Text(input[rootAttribute]))
        case Err(f) => Err(f)
        case Ok(l) => if l in children then children[l].PredictFrom(input) else Err(NullPointer)
    }

    /** predict: the input must hold one value per attribute other than
        the class. */
    function Predict(input: map<string, string>): (r: Result<bool>)
      requires Valid()
      reads Repr, attributeValues`processed, attributeValues`discretised
      ensures r == Err(IllegalArgument) <==> |input| != |attributeNames| - 1
      ensures |input| == |attributeNames| - 1 ==> r == PredictFrom(input)
    {
      if |input| != |attributeNames| - 1 then Err(IllegalArgument) else PredictFrom(input)
    }

    /** A prediction reads the input only at this node's attributes: two
        inputs that agree there (value or absence) get the same answer. */
    lemma {:induction false} PredictReadsAttributes(input: map<string, string>, other: map<string, string>)
      requires Valid()
      requires forall a :: a in attributeNames ==> (a in input <==> a in other)
      requires forall a :: a in attributeNames && a in input ==> input[a] == other[a]
      ensures PredictFrom(input) == PredictFrom(other)
      decreases Repr
    {
      if children != map[] && rootAttribute in input {
        var edge := attributeValues.GetLabel(rootAttribute, Text(input[rootAttribute]));
        if edge.Ok? && edge.value in children {
          children[edge.value].PredictReadsAttributes(input, other);
        }
      }
    }

    /** An attribute some inner node of this subtree splits on. */
    ghost predicate SplitsOn(a: string)
      requires Valid()
      reads Repr
      decreases Repr
    {
      children != map[] && (rootAttribute == a || exists l :: l in children && children[l].SplitsOn(a))
    }

    /** A subtree splits only on its own attributes. */
    lemma {:induction false} SplitsOnOwnAttribute(a: string)
      requires Valid() && SplitsOn(a)
      ensures a in attributeNames && a != classAttribute
      decreases Repr
    {
      if rootAttribute != a {
        var l :| l in children && children[l].SplitsOn(a);
        children[l].SplitsOnOwnAttribute(a);
      }
    }

    /** No path splits twice on one attribute: below an inner node, no
        node splits on its attribute again. */
    lemma NoRepeatedSplit()
      requires Valid() && children != map[]
      ensures forall l :: l in children ==> !children[l].SplitsOn(rootAttribute)
    {
      forall l | l in children
        ensures !children[l].SplitsOn(rootAttribute)
      {
        if children[l].SplitsOn(rootAttribute) {
          children[l].SplitsOnOwnAttribute(rootAttribute);
        }
      }
    }

    /** Every node keeps the class column among its attributes, so the
        "no attributes left" test of buildDecisionTree never holds in a
        tree grown from attributes that include it. */
    ghost predicate KeepsClass()
      requires Valid()
      reads Repr
      decreases Repr
    {
      classAttribute in attributeNames && forall l :: l in children ==> children[l].KeepsClass()
    }

    lemma {:induction false} ClassNeverRemoved()
      requires Valid() && classAttribute in attributeNames
      ensures KeepsClass()
      decreases Repr
    {
      forall l | l in children
        ensures children[l].KeepsClass()
      {
        children[l].ClassNeverRemoved();
      }
    }

    // -------------------------------------------------------------------
    // Pruning

    /** The significance test of prune at this node: the class counts of
        its examples, the domain size of its split attribute and the class
        counts of each domain value go to `accept` with size - 1 degrees of
        freedom (true: the split is not significant, collapse). The
        chi-squared distribution rejects fewer than one degree of
        freedom. */
    function Verdict(): Result<bool>
      reads this, attributeValues
    {
      var av := attributeValues;
      match Distribution(av, classify, classAttribute, allExamples, None)
      case Err(f) => Err(f)
      case Ok(pn) =>
        match av.Size(rootAttribute)
        case Err(f) => Err(f)
        case Ok(size) =>
          match av.Get(rootAttribute)
          case Err(f) => Err(f)
          case Ok(None) => Err(NullPointer)
          case Ok(Some(values)) =>
            match Counts(av, classify, classAttribute, allExamples, rootAttribute, values)
            case Err(f) => Err(f)
            case Ok(counts) =>
              if size - 1 <= 0 then Err(IllegalArgument) else Ok(accept(pn.0, pn.1, counts, size - 1))
    }

    /** After a successful prune: every inner node whose children are all
        leaves failed the collapse test. */
    ghost predicate Settled()
      requires Valid()
      reads Repr, attributeValues
      decreases Repr
    {
      children == map[] ||
      ((forall l :: l in children ==> children[l].Settled()) &&
       ((forall l :: l in children ==> children[l].children == map[]) ==> Verdict() == Ok(false)))
    }

    /** Each child's vote: whether it is a "+" leaf. */
    ghost function Ballot(kids: map<Label, DepthFirstTree>): map<Label, bool>
      reads kids.Values
    {
      map l | l in kids :: kids[l].rootAttribute == "+"
    }

    /** prune: a leaf reports true. An inner node prunes every child; when
        all of them are (now) leaves and the split fails the significance
        test, it becomes a leaf voting the majority of its children's
        classes and reports true; otherwise it reports false. */
    method Prune() returns (r: Result<bool>)
      requires Valid()
      modifies Repr
      decreases Repr, 3
      ensures Valid() && Repr == old(Repr)
      ensures r.Ok? ==> (r.value <==> children == map[]) && Settled()
      ensures old(children) == map[] ==> r == Ok(true) && children == map[] && rootAttribute == old(rootAttribute)
      ensures r == Ok(false) ==> children == old(children) && rootAttribute == old(rootAttribute)
      ensures r == Ok(true) && old(children) != map[] ==>
        old(Verdict()) == Ok(true) && children == map[] &&
        (forall l :: l in old(children) ==> old(children)[l].children == map[]) &&
        (rootAttribute == "+" || rootAttribute == "-") &&
        (Pluses(Ballot(old(children))) > Minuses(Ballot(old(children))) ==> rootAttribute == "+") &&
        (Minuses(Ballot(old(children))) > Pluses(Ballot(old(children))) ==> rootAttribute == "-")
    {
      if children == map[] {
        return Ok(true);
      }
      var order := Enumerate(children.Keys);
      ghost var kids := children;
      var childrenPruned := PruneChildren(order);
      assert children == kids && rootAttribute == old(rootAttribute) && Verdict() == old(Verdict());
      if childrenPruned.Err? {
        return Err(childrenPruned.failure);
      }
      if !childrenPruned.value {
        return Ok(false);
      }
      r := Conclude(order);
    }

    /** The tail of prune once every child is a leaf: the significance test
        decides, and a node that passes it collapses. */
    method Conclude(order: seq<Label>) returns (r: Result<bool>)
      requires Valid() && Distinct(order) && (forall l :: l in order <==> l in children)
      requires forall l :: l in children ==> children[l].Settled() && children[l].children == map[]
      modifies this`children, this`rootAttribute
      ensures Valid()
      ensures r == old(Verdict())
      ensures r != Ok(true) ==> unchanged(this)
      ensures r == Ok(false) ==> Settled()
      ensures r == Ok(true) ==>
        children == map[] && (rootAttribute == "+" || rootAttribute == "-") &&
        (forall l :: l in old(children) ==> old(children)[l].children == map[]) &&
        (Pluses(Ballot(old(children))) > Minuses(Ballot(old(children))) ==> rootAttribute == "+") &&
        (Minuses(Ballot(old(children))) > Pluses(Ballot(old(children))) ==> rootAttribute == "-")
    {
      r := Verdict();
      if r == Ok(true) {
        Collapse(order);
      }
    }

    /** The collapse of prune: the node becomes a leaf voting the majority
        class of its children, with a coin on a tie. */
    method Collapse(order: seq<Label>)
      requires Valid() && Distinct(order) && (forall l :: l in order <==> l in children)
      requires forall l :: l in children ==> children[l].children == map[]
      modifies this`children, this`rootAttribute
      ensures children == map[] && (rootAttribute == "+" || rootAttribute == "-")
      ensures forall l :: l in old(children) ==> old(children)[l].children == map[]
      ensures Pluses(Ballot(old(children))) > Minuses(Ballot(old(children))) ==> rootAttribute == "+"
      ensures Minuses(Ballot(old(children))) > Pluses(Ballot(old(children))) ==> rootAttribute == "-"
    {
      var ballot := map l | l in children :: children[l].rootAttribute == "+";
      ghost var kids := children;
      forall l | l in kids
        ensures kids[l] != this
      {
        assert kids[l] in kids[l].Repr;
      }
      var coin: bool :| true;
      var majority := Vote(ballot, order, coin);
      children := map[];
      rootAttribute := majority;
      forall l | l in kids
        ensures kids[l].rootAttribute == old(kids[l].rootAttribute) && kids[l].children == old(kids[l].children)
      {
      }
      assert Ballot(kids) == ballot;
    }

    /** The loop of prune over the children, in iteration order `order`:
        every child is pruned (no short-circuit), and the result says
        whether all of them are leaves now. */
    method PruneChildren(order: seq<Label>) returns (r: Result<bool>)
      requires Valid() && Distinct(order) && (forall l :: l in order <==> l in children)
      modifies Repr - {this}
      decreases Repr, 2
      ensures Valid()
      ensures r.Ok? ==>
        (forall l :: l in children ==> children[l].Settled()) &&
        (r.value <==> forall l :: l in children ==> children[l].children == map[])
    {
      var pruned := true;
      ghost var inner := 0;
      for i := 0 to |order|
        invariant Valid()
        invariant forall j :: 0 <= j < i ==> children[order[j]].Settled()
        invariant pruned ==> forall j :: 0 <= j < i ==> children[order[j]].children == map[]
        invariant !pruned ==> inner < i && children[order[inner]].children != map[]
      {
        var childPruned := PruneStep(order, i, pruned);
        if childPruned.Err? {
          return Err(childPruned.failure);
        }
        if pruned && !childPruned.value {
          inner := i;
        }
        pruned := pruned && childPruned.value;
      }
      forall l | l in children
        ensures children[l].Settled() && (pruned ==> children[l].children == map[])
      {
        assert l in order;
      }
      return Ok(pruned);
    }

    /** One round of that loop: the earlier children keep their state. */
    method PruneStep(order: seq<Label>, i: nat, pruned: bool) returns (r: Result<bool>)
      requires Valid() && Distinct(order) && (forall l :: l in order <==> l in children) && i < |order|
      requires forall j :: 0 <= j < i ==> children[order[j]].Settled()
      requires pruned ==> forall j :: 0 <= j < i ==> children[order[j]].children == map[]
      modifies children[order[i]].Repr
      decreases Repr, 1
      ensures Valid()
      ensures r.Ok? ==> forall j :: 0 <= j <= i ==> children[order[j]].Settled()
      ensures forall j :: 0 <= j < i ==> children[order[j]].children == old(children[order[j]].children)
      ensures r.Ok? ==> (r.value <==> children[order[i]].children == map[])
      ensures r.Ok? && pruned && r.value ==> forall j :: 0 <= j <= i ==> children[order[j]].children == map[]
    {
      var l := order[i];
      ghost var kids := children;
      r := PruneChild(l);
      assert children == kids;
      forall j | 0 <= j < i
        ensures children[order[j]].Settled() && children[order[j]].children == old(children[order[j]].children)
      {
        assert order[j] != l;
        assert children[order[j]].Repr !! children[l].Repr;
        assert old(children[order[j]].Settled());
      }
      if r.Ok? && pruned && r.value {
        forall j | 0 <= j <= i
          ensures children[order[j]].children == map[]
        {
          if j < i {
            assert old(children[order[j]].children) == map[];
          }
        }
      }
    }

    /** child.prune() for the child under `l`. */
    method PruneChild(l: Label) returns (r: Result<bool>)
      requires Valid() && l in children
      modifies children[l].Repr
      decreases Repr, 0
      ensures children[l].Valid() && children[l].Repr == old(children[l].Repr)
      ensures r.Ok? ==> (r.value <==> children[l].children == map[]) && children[l].Settled()
    {
      r := children[l].Prune();
    }

    /** The majority of prune over the children's votes, counted in
        `order`: "+" on more "+" votes, "-" on more others, the coin on a
        tie. */
    method Vote(ballot: map<Label, bool>, order: seq<Label>, coin: bool) returns (majority: string)
      requires Distinct(order) && (forall l :: l in order <==> l in ballot)
      ensures majority == "+" || majority == "-"
      ensures Pluses(ballot) > Minuses(ballot) ==> majority == "+"
      ensures Minuses(ballot) > Pluses(ballot) ==> majority == "-"
      ensures Pluses(ballot) == Minuses(ballot) ==> majority == Sign(coin)
    {
      var nPluses, nMinuses := 0, 0;
      for i := 0 to |order|
        invariant nPluses == Tally(ballot, order[..i], true)
        invariant nMinuses == Tally(ballot, order[..i], false)
      {
        assert order[..i + 1][..i] == order[..i];
        if ballot[order[i]] {
          nPluses := nPluses + 1;
        } else {
          nMinuses := nMinuses + 1;
        }
      }
      assert order[..|order|] == order;
      TallyCountsSet(ballot, order, true);
      TallyCountsSet(ballot, order, false);
      assert Voters(ballot, order, true) == set l | l in ballot && ballot[l];
      assert Voters(ballot, order, false) == set l | l in ballot && !ballot[l];
      if nPluses > nMinuses {
        majority := "+";
      } else if nMinuses > nPluses {
        majority := "-";
      } else {
        majority := Sign(coin);
      }
    }
  }

  // ---------------------------------------------------------------------
  // The root: the attribute domains, then the tree

  /** The class counts of getAttributeValues; a record without the class
      column throws IllegalArgument (CSVRecord.get). */
  method CountClasses(classify: Classifier, classAttribute: string, examples: seq<Example>)
    returns (r: Result<(int, int)>)
    ensures r.Ok? <==> HasColumn(examples, classAttribute)
    ensures r.Ok? ==> r.value == (Positives(classify, classAttribute, examples), Negatives(classify, classAttribute, examples))
    ensures r.Err? ==> r.failure == IllegalArgument
  {
    var p, n := 0, 0;
    for i := 0 to |examples|
      invariant HasColumn(examples[..i], classAttribute)
      invariant p == Positives(classify, classAttribute, examples[..i])
      invariant n == Negatives(classify, classAttribute, examples[..i])
    {
      if classAttribute !in examples[i] {
        return Err(IllegalArgument);
      }
      assert examples[..i + 1][..i] == examples[..i];
      if IsPositive(classify, classAttribute, examples[i]) {
        p := p + 1;
      } else {
        n := n + 1;
      }
    }
    assert examples[..|examples|] == examples;
    return Ok((p, n));
  }

  /** The (value, class) pairs getAttributeValues hands to put for one
      attribute, in example order. */
  method CollectColumn(classify: Classifier, classAttribute: string, examples: seq<Example>, attribute: string)
    returns (r: Result<seq<(string, bool)>>)
    requires HasColumn(examples, classAttribute)
    ensures r.Ok? <==> HasColumn(examples, attribute)
    ensures r.Ok? ==>
      |r.value| == |examples| &&
      forall i :: 0 <= i < |examples| ==>
        r.value[i] == (examples[i][attribute], IsPositive(classify, classAttribute, examples[i]))
    ensures r.Err? ==> r.failure == IllegalArgument
  {
    var list := [];
    for i := 0 to |examples|
      invariant HasColumn(examples[..i], attribute)
      invariant |list| == i
      invariant forall k :: 0 <= k < i ==>
        list[k] == (examples[k][attribute], IsPositive(classify, classAttribute, examples[k]))
    {
      if attribute !in examples[i] {
        return Err(IllegalArgument);
      }
      list := list + [(examples[i][attribute], IsPositive(classify, classAttribute, examples[i]))];
    }
    return Ok(list);
  }

  /** getAttributeValues: the class counts of all examples, a fresh
      attribute set for |names| - 1 attributes, and one put per attribute
      other than the class. The last put post-processes the set, so the
      set ends up processed exactly when the class column is among the
      names and some other attribute is; a class column missing from the
      names makes the last put fail. */
  method GetAttributeValues(names: set<string>, classAttribute: string, classify: Classifier,
                            examples: seq<Example>, parse: Parser, render: real -> string, log2: real -> real)
    returns (r: Result<AttributeSet>)
    ensures r.Ok? ==>
      fresh(r.value) && r.value.Valid() && HasColumn(examples, classAttribute) &&
      r.value.positives == Positives(classify, classAttribute, examples) &&
      r.value.negatives == Negatives(classify, classAttribute, examples) &&
      r.value.attributeCount == |names| - 1 && r.value.log2 == log2 &&
      (forall a :: a in names && a != classAttribute ==> HasColumn(examples, a)) &&
      (r.value.processed <==> classAttribute in names && |names| > 1)
    ensures r.Ok? && r.value.processed ==>
      forall a :: a in names && a != classAttribute ==> a in r.value.stringValues || a in r.value.discretised
    ensures classAttribute !in names && |names| > 1 ==> r.Err?
    ensures examples == [] ==> if names - {classAttribute} != {} then r == Err(IndexOutOfBounds) else r.Ok?
  {
    var counts := CountClasses(classify, classAttribute, examples);
    if counts.Err? {
      return Err(counts.failure);
    }
    var av := new AttributeSet(|names|, counts.value.0, counts.value.1, parse, render, log2);
    var order := Enumerate(names);
    var failure := PutAll(av, names, order, classify, classAttribute, examples);
    if failure.Some? {
      return Err(failure.value);
    }
    return Ok(av);
  }

  /** The loop of getAttributeValues over the attribute names in iteration
      order `order`, skipping the class column. */
  method PutAll(av: AttributeSet, names: set<string>, order: seq<string>, classify: Classifier,
                classAttribute: string, examples: seq<Example>)
    returns (failure: Option<Failure>)
    requires av.Valid() && HasColumn(examples, classAttribute)
    requires av.inputCounter == 0 && !av.processed && av.stringValueset == map[] && av.numericValues == map[]
    requires av.attributeCount == |names| - 1
    requires Distinct(order) && |order| == |names| && forall x :: x in order <==> x in names
    modifies av
    ensures av.Valid()
    ensures failure.None? ==>
      (forall a :: a in names && a != classAttribute ==> HasColumn(examples, a)) &&
      (av.processed <==> classAttribute in names && |names| > 1) &&
      (av.processed ==> forall a :: a in names && a != classAttribute ==> a in av.stringValues || a in av.discretised)
    ensures classAttribute !in names && |names| > 1 ==> failure.Some?
    ensures examples == [] && names - {classAttribute} != {} ==> failure == Some(IndexOutOfBounds)
    ensures names - {classAttribute} == {} ==> failure.None?
  {
    failure := None;
    var seenClass := false;
    ghost var done: set<string> := {};
    for i := 0 to |order|
      invariant av.Valid() && failure.None?
      invariant PutProgress(av, names, order, classAttribute, examples, i, seenClass, done)
    {
      failure, seenClass, done := PutStep(av, names, order, classify, classAttribute, examples, i, seenClass, done);
      if failure.Some? {
        return;
      }
    }
    PutDone(av, names, order, classAttribute, examples, seenClass, done);
  }

  /** After `i` rounds of getAttributeValues' loop: `seenClass` says
      whether the class column came up, `done` holds the attributes put so
      far; the set counts one input per attribute, is processed exactly
      when that count reached attributeCount (never beyond it), and holds
      the attributes in its collecting maps or, once processed, in its
      domains. */
  ghost predicate PutProgress(av: AttributeSet, names: set<string>, order: seq<string>, classAttribute: string,
                              examples: seq<Example>, i: nat, seenClass: bool, done: set<string>)
    reads av
  {
    i <= |order| &&
    (seenClass ==> classAttribute in order[..i]) &&
    (!seenClass ==> forall j :: 0 <= j < i ==> order[j] != classAttribute) &&
    done <= names - {classAttribute} &&
    (forall j :: 0 <= j < i && order[j] != classAttribute ==> order[j] in done) &&
    av.inputCounter == i - (if seenClass then 1 else 0) &&
    (av.processed <==> 1 <= av.inputCounter == av.attributeCount) &&
    (av.attributeCount >= 1 ==> av.inputCounter <= av.attributeCount) &&
    (!av.processed ==> av.stringValueset.Keys + av.numericValues.Keys == done) &&
    (av.processed ==> av.stringValues.Keys + av.discretised.Keys == done) &&
    (forall a :: a in done ==> HasColumn(examples, a)) &&
    (examples == [] ==> done == {})
  }

  /** One round of getAttributeValues' loop. */
  method PutStep(av: AttributeSet, names: set<string>, order: seq<string>, classify: Classifier,
                 classAttribute: string, examples: seq<Example>, i: nat, seenClass: bool, ghost done: set<string>)
    returns (failure: Option<Failure>, seenClass': bool, ghost done': set<string>)
    requires av.Valid() && HasColumn(examples, classAttribute)
    requires Distinct(order) && (forall x :: x in order <==> x in names) && i < |order|
    requires PutProgress(av, names, order, classAttribute, examples, i, seenClass, done)
    modifies av
    ensures av.Valid()
    ensures failure.None? ==> PutProgress(av, names, order, classAttribute, examples, i + 1, seenClass', done')
    ensures failure.Some? ==>
      names - {classAttribute} != {} && (examples == [] ==> failure == Some(IndexOutOfBounds))
  {
    var attribute := order[i];
    assert order[..i + 1] == order[..i] + [attribute];
    if attribute == classAttribute {
      return None, true, done;
    }
    assert attribute in names - {classAttribute} by {
      assert order[i] in order;
    }
    failure := PutAttribute(av, classify, classAttribute, examples, attribute);
    return failure, seenClass, done + {attribute};
  }

  /** The end of getAttributeValues' loop. */
  lemma PutDone(av: AttributeSet, names: set<string>, order: seq<string>, classAttribute: string,
                examples: seq<Example>, seenClass: bool, done: set<string>)
    requires |order| == |names| && forall x :: x in order <==> x in names
    requires av.attributeCount == |names| - 1
    requires PutProgress(av, names, order, classAttribute, examples, |order|, seenClass, done)
    ensures forall a :: a in names && a != classAttribute ==> HasColumn(examples, a)
    ensures av.processed <==> classAttribute in names && |names| > 1
    ensures av.processed ==> forall a :: a in names && a != classAttribute ==> a in av.stringValues || a in av.discretised
    ensures classAttribute !in names ==> |names| <= 1
    ensures examples == [] ==> names - {classAttribute} == {}
  {
    assert done == names - {classAttribute} by {
      forall a | a in names && a != classAttribute
        ensures a in done
      {
        assert a in order;
      }
    }
    assert classAttribute in names ==> seenClass by {
      if classAttribute in names {
        assert classAttribute in order;
      }
    }
  }

  /** The public constructor: getAttributeValues over all the training
      examples, then buildDecisionTree at the root, whose parent examples
      are null: an empty training set that gets past getAttributeValues
      throws NullPointer in majority. The ghost outputs are the root's
      scan, as BuildDecisionTree returns it. */
  method Learn(names: set<string>, classAttribute: string, classify: Classifier, examples: seq<Example>,
               parse: Parser, render: real -> string, log2: real -> real, accept: CollapseTest)
    returns (r: Result<DepthFirstTree>, ghost order: seq<string>, ghost importances: seq<Option<real>>,
             ghost domains: map<string, seq<string>>)
    ensures examples == [] ==>
      r == Err(if names - {classAttribute} != {} then IndexOutOfBounds else NullPointer)
    ensures r.Ok? ==>
      var t := r.value;
      fresh(t.Repr) && t.Valid() && t.attributeNames == names && t.classAttribute == classAttribute &&
      t.allExamples == examples && examples != [] && HasColumn(examples, classAttribute) &&
      (Homogeneous(classify, classAttribute, examples) ==>
        t.children == map[] && t.rootAttribute == Sign(IsPositive(classify, classAttribute, examples[0]))) &&
      (!Homogeneous(classify, classAttribute, examples) ==>
        Reordered(domains, t.attributeValues.stringValues) &&
        ImportanceScan(t.attributeValues, domains, classify, classAttribute, examples, names, order, importances) &&
        |importances| == |order| &&
        (FirstMax(importances, MinDouble).None? ==>
           t.children == map[] && (t.rootAttribute == "+" || t.rootAttribute == "-") &&
           IsMajorityLabel(classify, classAttribute, examples, t.rootAttribute == "+")) &&
        (FirstMax(importances, MinDouble).Some? ==>
           FirstMax(importances, MinDouble).value < |order| &&
           t.rootAttribute == order[FirstMax(importances, MinDouble).value] &&
           t.rootAttribute in names && t.rootAttribute != classAttribute &&
           t.SplitOn(t.rootAttribute) && t.EmptyBranchesVote()))
  {
    order, importances, domains := [], [], map[];
    var av := GetAttributeValues(names, classAttribute, classify, examples, parse, render, log2);
    if av.Err? {
      return Err(av.failure), order, importances, domains;
    }
    if examples == [] {
      return Err(NullPointer), order, importances, domains;
    }
    var tree := new DepthFirstTree.Init(names, classAttribute, classify, examples, av.value, accept);
    var failure;
    failure, order, importances, domains := tree.BuildDecisionTree([]);
    if failure.Some? {
      return Err(failure.value), order, importances, domains;
    }
    return Ok(tree), order, importances, domains;
  }

  /** One round of getAttributeValues: the column of `attribute` goes to
      put, which fails on an empty column or an already processed set and
      otherwise records the attribute (in the domains once processed). */
  method PutAttribute(av: AttributeSet, classify: Classifier, classAttribute: string, examples: seq<Example>,
                      attribute: string)
    returns (failure: Option<Failure>)
    requires av.Valid() && HasColumn(examples, classAttribute)
    modifies av
    ensures av.Valid()
    ensures examples == [] ==> failure == Some(IndexOutOfBounds)
    ensures failure.None? ==>
      HasColumn(examples, attribute) && !old(av.processed) && av.inputCounter == old(av.inputCounter) + 1 &&
      (av.processed <==> av.inputCounter == av.attributeCount) &&
      (!av.processed ==>
        av.stringValueset.Keys + av.numericValues.Keys == old(av.stringValueset.Keys + av.numericValues.Keys) + {attribute}) &&
      (av.processed ==>
        av.stringValues.Keys + av.discretised.Keys == old(av.stringValueset.Keys + av.numericValues.Keys) + {attribute})
  {
    var column := CollectColumn(classify, classAttribute, examples, attribute);
    if column.Err? {
      failure := Some(column.failure);
    } else {
      failure := av.Put(attribute, column.value);
    }
  }
}
