/** The attribute-domain engine (AttributeSet): it collects the values of
    every input attribute, decides per attribute whether it is categorical
    or numeric, discretises the numeric ones once every attribute has been
    put, and answers the lookups the tree learner makes. */
module Attributes {
  import opened Helpers
  import opened Binning

  /** The runtime exceptions the source can raise, by Java class. */
  datatype Failure =
    | NullPointer           // a null map or list dereferenced
    | IndexOutOfBounds      // List.get / subList outside the list
    | NumberFormat          // Double.valueOf / parseDouble on a non-number
    | ClassCast             // (Double) on a String
    | UnsupportedOperation  // add on an immutable List.of()
    | IllegalArgument       // a wrong-width input, or subList(0, size) with size < 0

  datatype Result<T> = Ok(value: T) | Err(failure: Failure)

  /** Double.valueOf: the parsed value, or None where it throws. */
  type Parser = string -> Option<real>

  /** A domain value handed to the lookups: Java's Object is a String (a
      categorical value) or a Double (a numeric threshold). */
  datatype Datum = Text(s: string) | Number(b: Bound)

  /** An edge label. Categorical values show their own text; a numeric
      value shows its bin: at most the first threshold, above the
      second-to-last threshold, or between two neighbouring thresholds. */
  datatype Label = Shown(text: string) | AtMost(t: Bound) | Above(t: Bound) | Between(lo: Bound, hi: Bound)

  predicate Distinct<T(==)>(s: seq<T>)
  {
    forall i, j :: 0 <= i < j < |s| ==> s[i] != s[j]
  }

  /** A sequence has no duplicates exactly when no element occurs twice in
      its multiset. */
  lemma {:induction false} DistinctMultiset<T>(s: seq<T>)
    ensures Distinct(s) <==> forall x :: multiset(s)[x] <= 1
  {
    if s != [] {
      var t := s[1..];
      assert s == [s[0]] + t;
      assert multiset(s) == multiset([s[0]]) + multiset(t);
      DistinctMultiset(t);
      if Distinct(s) {
        forall j | 0 <= j < |t| ensures t[j] != s[0] { assert t[j] == s[j + 1]; }
        forall i, j | 0 <= i < j < |t| ensures t[i] != t[j] { assert t[i] == s[i + 1] && t[j] == s[j + 1]; }
        assert s[0] !in multiset(t);
      }
      if forall x :: multiset(s)[x] <= 1 {
        assert multiset(s)[s[0]] <= 1;
        assert multiset(t)[s[0]] == 0;
        forall x ensures multiset(t)[x] <= 1 { assert multiset(s)[x] <= 1; }
        forall i, j | 0 <= i < j < |s| ensures s[i] != s[j] {
          if i == 0 {
            assert s[j] == t[j - 1];
            assert s[j] in multiset(t);
          } else {
            assert s[i] == t[i - 1] && s[j] == t[j - 1];
          }
        }
      }
    }
  }

  /** A permutation of a duplicate-free sequence is duplicate-free. */
  lemma PermutationDistinct<T>(a: seq<T>, b: seq<T>)
    requires Distinct(a) && multiset(a) == multiset(b)
    ensures Distinct(b)
  {
    DistinctMultiset(a);
    DistinctMultiset(b);
  }

  /** ArrayList.addAll of a HashSet: its elements once each, in an order
      the model leaves open. */
  method Enumerate<T(==)>(s: set<T>) returns (l: seq<T>)
    ensures Distinct(l) && |l| == |s|
    ensures forall x :: x in l <==> x in s
  {
    l := [];
    var rest := s;
    while rest != {}
      invariant Distinct(l) && |l| + |rest| == |s|
      invariant forall x :: x in s <==> x in l || x in rest
      invariant forall x :: x in l ==> x !in rest
      decreases rest
    {
      var x :| x in rest;
      l := l + [x];
      rest := rest - {x};
    }
  }

  // ---------------------------------------------------------------------
  // What put adds to the collecting maps

  /** Position of the first value Double.valueOf rejects, or |values|. */
  function FirstUnparsable(parse: Parser, values: seq<(string, bool)>): (k: nat)
    ensures k <= |values|
    ensures forall i :: 0 <= i < k ==> parse(values[i].0).Some?
    ensures k < |values| ==> parse(values[k].0).None?
  {
    if values == [] || parse(values[0].0).None? then 0
    else 1 + FirstUnparsable(parse, values[1..])
  }

  /** The (value, class) pairs of values that all parse. */
  function Parsed(parse: Parser, values: seq<(string, bool)>): (r: seq<Observation>)
    requires forall i :: 0 <= i < |values| ==> parse(values[i].0).Some?
  {
    seq(|values|, i requires 0 <= i < |values| => (parse(values[i].0).value, values[i].1))
  }

  /** The numeric list of `attribute` extended by `obs`, created if absent. */
  function AppendNumbers(m: map<string, seq<Observation>>, attribute: string, obs: seq<Observation>)
    : map<string, seq<Observation>>
  {
    m[attribute := (if attribute in m then m[attribute] else []) + obs]
  }

  /** The value set of `attribute` extended by the raw strings of `values`,
      created if absent. */
  function AddStrings(m: map<string, set<string>>, attribute: string, values: seq<(string, bool)>)
    : map<string, set<string>>
  {
    m[attribute := (if attribute in m then m[attribute] else {}) + Strings(values)]
  }

  /** The raw strings of a value list. */
  function Strings(values: seq<(string, bool)>): set<string>
  {
    set i | 0 <= i < |values| :: values[i].0
  }

  lemma StringsSnoc(values: seq<(string, bool)>, i: nat)
    requires i < |values|
    ensures Strings(values[..i + 1]) == Strings(values[..i]) + {values[i].0}
  {
    var a, b := values[..i + 1], values[..i];
    forall x | x in Strings(a) ensures x in Strings(b) + {values[i].0} {
      var k :| 0 <= k < |a| && a[k].0 == x;
      if k < i { assert b[k] == a[k]; }
    }
    forall x | x in Strings(b) + {values[i].0} ensures x in Strings(a) {
      if x == values[i].0 {
        assert a[i].0 == x;
      } else {
        var k :| 0 <= k < |b| && b[k].0 == x;
        assert a[k] == b[k];
      }
    }
  }

  /** Adding to a domain set twice adds the union. */
  lemma AddStringsTwice(m: map<string, set<string>>, attribute: string, xs: seq<(string, bool)>, x: string)
    ensures var m' := AddStrings(m, attribute, xs);
      m'[attribute := m'[attribute] + {x}] == m[attribute := (if attribute in m then m[attribute] else {}) + (Strings(xs) + {x})]
  {
    var e := if attribute in m then m[attribute] else {};
    assert e + Strings(xs) + {x} == e + (Strings(xs) + {x});
  }

  /** Appending to a numeric list twice appends the concatenation. */
  lemma AppendNumbersTwice(m: map<string, seq<Observation>>, attribute: string, xs: seq<Observation>, ys: seq<Observation>)
    ensures AppendNumbers(AppendNumbers(m, attribute, xs), attribute, ys) == AppendNumbers(m, attribute, xs + ys)
  {
    var e := if attribute in m then m[attribute] else [];
    assert e + xs + ys == e + (xs + ys);
  }

  /** The threshold lists of all numeric attributes (corrected: see
      DiscretiseAsWritten). */
  function DiscretiseAll(log2: real -> real, positives: int, negatives: int, numbers: map<string, seq<Observation>>)
    : map<string, seq<Bound>>
  {
    map a | a in numbers :: Discretise(log2, positives, negatives, numbers[a])
  }

  lemma DiscretiseAllWellFormed(log2: real -> real, positives: int, negatives: int, numbers: map<string, seq<Observation>>)
    ensures var r := DiscretiseAll(log2, positives, negatives, numbers);
      r.Keys == numbers.Keys && forall a :: a in r ==> WellFormedThresholds(r[a])
  {
    forall a | a in numbers
      ensures WellFormedThresholds(Discretise(log2, positives, negatives, numbers[a]))
    {
      DiscretiseWellFormed(log2, positives, negatives, numbers[a]);
    }
  }

  // ---------------------------------------------------------------------
  // The source's discretisation as written

  /** discretiseAllNumericAttributes for one attribute as written: bin
      answers every early exit with the immutable List.of(), so appending
      the +infinity sentinel throws whenever bin found no split. */
  function DiscretiseAsWritten(log2: real -> real, positives: int, negatives: int, observations: seq<Observation>)
    : Result<seq<Bound>>
  {
    var splits := BinSpec(ScanChooser(log2), 0, positives, negatives, SortByValue(observations)).0;
    if splits == [] then Err(UnsupportedOperation) else Ok(ToBounds(splits) + [Infinity])
  }

  /** As written, discretisation fails exactly when the corrected version
      yields the sentinel alone, and agrees with it otherwise. */
  lemma AsWrittenFailsWithoutSplits(log2: real -> real, positives: int, negatives: int, observations: seq<Observation>)
    ensures var w := DiscretiseAsWritten(log2, positives, negatives, observations);
      (w.Err? <==> Discretise(log2, positives, negatives, observations) == [Infinity]) &&
      (w.Ok? ==> w.value == Discretise(log2, positives, negatives, observations))
  {
    var splits := BinSpec(ScanChooser(log2), 0, positives, negatives, SortByValue(observations)).0;
    if Discretise(log2, positives, negatives, observations) == [Infinity] {
      assert |ToBounds(splits)| == 0;
    }
  }

  /** A numeric attribute observed once is enough to make the source throw,
      while the corrected discretisation gives it a single bin. */
  lemma SingleObservationThrows(log2: real -> real, positives: int, negatives: int, x: real, positive: bool)
    ensures DiscretiseAsWritten(log2, positives, negatives, [(x, positive)]) == Err(UnsupportedOperation)
    ensures Discretise(log2, positives, negatives, [(x, positive)]) == [Infinity]
  {
    assert SortByValue([(x, positive)]) == Insert([], (x, positive));
    assert Insert([], (x, positive)) == [(x, positive)];
    assert ToBounds([]) == [];
  }

  // ---------------------------------------------------------------------
  // The attribute set

  class AttributeSet {
    /** Number of attributes other than the class column (nAttributes). */
    const attributeCount: int
    /** Class counts of the whole training set. */
    const positives: int
    const negatives: int
    /** Double.valueOf and Double.toString. */
    const parse: Parser
    const render: real -> string
    /** log2 inside the entropy formula. */
    const log2: real -> real

    var inputCounter: int
    /** Categorical domains, filled by post-processing. */
    var stringValues: map<string, seq<string>>
    /** Collecting maps, null after post-processing. */
    var stringValueset: map<string, set<string>>
    var numericValues: map<string, seq<Observation>>
    /** Threshold lists of the numeric attributes, null before post-processing. */
    var discretised: map<string, seq<Bound>>
    /** Post-processing has run. */
    var processed: bool
    var attributeSplitCount: int

    ghost predicate Valid()
      reads this
    {
      (!processed ==> stringValues == map[] && discretised == map[]) &&
      (processed ==> stringValueset == map[] && numericValues == map[]) &&
      (forall a :: a in stringValues ==> Distinct(stringValues[a])) &&
      (forall a :: a in discretised ==> WellFormedThresholds(discretised[a]))
    }

    constructor (nAttributes: int, nPositives: int, nNegatives: int, parse: Parser, render: real -> string,
                 log2: real -> real)
      ensures Valid()
      ensures attributeCount == nAttributes - 1 && positives == nPositives && negatives == nNegatives
      ensures this.parse == parse && this.render == render && this.log2 == log2
      ensures inputCounter == 0 && !processed && stringValueset == map[] && numericValues == map[]
    {
      attributeCount := nAttributes - 1;
      positives := nPositives;
      negatives := nNegatives;
      this.parse := parse;
      this.render := render;
      this.log2 := log2;
      inputCounter := 0;
      stringValues := map[];
      stringValueset := map[];
      numericValues := map[];
      discretised := map[];
      processed := false;
      attributeSplitCount := 0;
    }

    /** The domain lists hold the collected sets, each element once. */
    ghost predicate DomainsOf(strings: map<string, set<string>>)
      reads this
    {
      stringValues.Keys == strings.Keys &&
      forall a :: a in stringValues ==> ListsSet(stringValues[a], strings[a])
    }

    /** The state after post-processing of the collected maps `strings`
        and `numbers`. */
    ghost predicate ProcessedFrom(strings: map<string, set<string>>, numbers: map<string, seq<Observation>>)
      reads this
    {
      processed && stringValueset == map[] && numericValues == map[] &&
      DomainsOf(strings) &&
      discretised == DiscretiseAll(log2, positives, negatives, numbers)
    }

    /** put: the attribute is numeric when its first value parses; the
        values are then appended as numbers (up to the first that does not
        parse, where put throws), and otherwise added to its set of
        strings. The call that brings the counter to attributeCount turns
        the sets into duplicate-free lists and discretises the numbers. */
    method Put(attribute: string, values: seq<(string, bool)>) returns (failure: Option<Failure>)
      requires Valid()
      modifies this
      ensures Valid()
      ensures inputCounter == old(inputCounter) + 1
      ensures values == [] || old(processed) ==>
        failure == Some(if values == [] then IndexOutOfBounds else NullPointer) &&
        processed == old(processed) && stringValues == old(stringValues) && discretised == old(discretised) &&
        stringValueset == old(stringValueset) && numericValues == old(numericValues)
      ensures (values != [] && !old(processed) && parse(values[0].0).Some? &&
               FirstUnparsable(parse, values) < |values|) ==>
        failure == Some(NumberFormat) &&
        !processed && stringValues == old(stringValues) && discretised == old(discretised) &&
        stringValueset == old(stringValueset) &&
        numericValues == AppendNumbers(old(numericValues), attribute,
                                       Parsed(parse, values[..FirstUnparsable(parse, values)]))
      ensures (values != [] && !old(processed) &&
               !(parse(values[0].0).Some? && FirstUnparsable(parse, values) < |values|)) ==>
        failure == None &&
        var numeric := parse(values[0].0).Some?;
        var strings := if numeric then old(stringValueset) else AddStrings(old(stringValueset), attribute, values);
        var numbers := if numeric then AppendNumbers(old(numericValues), attribute, Parsed(parse, values))
                       else old(numericValues);
        (inputCounter == attributeCount ==> ProcessedFrom(strings, numbers)) &&
        (inputCounter != attributeCount ==>
          !processed && stringValues == old(stringValues) && discretised == old(discretised) &&
          stringValueset == strings && numericValues == numbers)
    {
      failure := None;
      inputCounter := inputCounter + 1;
      if values == [] {
        return Some(IndexOutOfBounds);
      }
      if processed {
        return Some(NullPointer);
      }
      if parse(values[0].0).Some? {
        failure := CollectNumbers(attribute, values);
        if failure.Some? {
          return;
        }
        assert values[..|values|] == values;
        assert numericValues == AppendNumbers(old(numericValues), attribute, Parsed(parse, values));
      } else {
        CollectStrings(attribute, values);
      }
      if inputCounter == attributeCount {
        ghost var strings, numbers := stringValueset, numericValues;
        PostProcess();
        assert ProcessedFrom(strings, numbers);
      }
    }

    /** put's numeric loop. */
    method CollectNumbers(attribute: string, values: seq<(string, bool)>) returns (failure: Option<Failure>)
      modifies this`numericValues
      ensures var k := FirstUnparsable(parse, values);
        (failure.Some? <==> k < |values|) && (failure.Some? ==> failure.value == NumberFormat) &&
        numericValues == if k == 0 then old(numericValues)
                         else AppendNumbers(old(numericValues), attribute, Parsed(parse, values[..k]))
    {
      for i := 0 to |values|
        invariant i <= FirstUnparsable(parse, values)
        invariant numericValues == if i == 0 then old(numericValues)
                                   else AppendNumbers(old(numericValues), attribute, Parsed(parse, values[..i]))
      {
        var x := parse(values[i].0);
        if x.None? {
          return Some(NumberFormat);
        }
        var list := if attribute in numericValues then numericValues[attribute] else [];
        ghost var before := numericValues;
        numericValues := numericValues[attribute := list + [(x.value, values[i].1)]];
        assert numericValues == AppendNumbers(before, attribute, [(x.value, values[i].1)]);
        if i == 0 {
          assert Parsed(parse, values[..1]) == [(x.value, values[i].1)];
        } else {
          assert Parsed(parse, values[..i + 1]) == Parsed(parse, values[..i]) + [(x.value, values[i].1)];
          AppendNumbersTwice(old(numericValues), attribute, Parsed(parse, values[..i]), [(x.value, values[i].1)]);
        }
      }
      assert values[..|values|] == values;
      return None;
    }

    /** put's categorical loop. */
    method CollectStrings(attribute: string, values: seq<(string, bool)>)
      requires values != []
      modifies this`stringValueset
      ensures stringValueset == AddStrings(old(stringValueset), attribute, values)
    {
      for i := 0 to |values|
        invariant stringValueset == if i == 0 then old(stringValueset)
                                    else AddStrings(old(stringValueset), attribute, values[..i])
      {
        var set_ := if attribute in stringValueset then stringValueset[attribute] else {};
        stringValueset := stringValueset[attribute := set_ + {values[i].0}];
        StringsSnoc(values, i);
        if i == 0 {
          assert Strings(values[..1]) == {values[0].0};
        } else {
          AddStringsTwice(old(stringValueset), attribute, values[..i], values[i].0);
        }
      }
      assert values[..|values|] == values;
    }

    /** put's post-processing: domains as lists, numbers discretised, the
        collecting maps dropped. */
    method PostProcess()
      requires Valid() && !processed
      modifies this
      ensures Valid()
      ensures ProcessedFrom(old(stringValueset), old(numericValues))
      ensures inputCounter == old(inputCounter)
    {
      ListDomains();
      DiscretiseAllNumericAttributes();
      DiscretiseAllWellFormed(log2, positives, negatives, numericValues);
      stringValueset := map[];
      numericValues := map[];
      processed := true;
    }

    /** The domain lists of post-processing, one per collected set. */
    method ListDomains()
      requires stringValues == map[]
      modifies this`stringValues
      ensures DomainsOf(stringValueset)
    {
      var pending := stringValueset.Keys;
      while pending != {}
        invariant pending <= stringValueset.Keys
        invariant stringValues.Keys == stringValueset.Keys - pending
        invariant forall a :: a in stringValues ==> ListsSet(stringValues[a], stringValueset[a])
        decreases pending
      {
        var name :| name in pending;
        var list := Enumerate(stringValueset[name]);
        stringValues := stringValues[name := list];
        pending := pending - {name};
      }
    }

    /** discretiseAllNumericAttributes: each numeric attribute, sorted by
        value, is binned with a fresh split counter and capped by the
        +infinity sentinel. */
    method DiscretiseAllNumericAttributes()
      modifies this`discretised, this`attributeSplitCount
      ensures discretised == DiscretiseAll(log2, positives, negatives, numericValues)
    {
      var numbers := numericValues;
      ghost var spec := DiscretiseAll(log2, positives, negatives, numbers);
      var done: map<string, seq<Bound>> := map[];
      var pending := numbers.Keys;
      while pending != {}
        invariant pending <= numbers.Keys
        invariant spec == DiscretiseAll(log2, positives, negatives, numbers)
        invariant done.Keys == numbers.Keys - pending
        invariant forall a :: a in done ==> done[a] == spec[a]
        decreases pending
      {
        var name :| name in pending;
        var thresholds := DiscretiseOne(numbers[name]);
        done := done[name := thresholds];
        pending := pending - {name};
      }
      discretised := done;
    }

    /** One attribute of that loop: sorted by value, binned with a fresh
        split counter, capped by the +infinity sentinel. */
    method DiscretiseOne(observations: seq<Observation>) returns (thresholds: seq<Bound>)
      modifies this`attributeSplitCount
      ensures thresholds == Discretise(log2, positives, negatives, observations)
    {
      var sorted := SortByValue(observations);
      attributeSplitCount := 0;
      var splitPoints := Bin(positives, negatives, sorted);
      thresholds := ToBounds(splitPoints) + [Infinity];
    }

    /** bin: recursive supervised binning with the shared split counter. */
    method Bin(p: int, n: int, values: seq<Observation>) returns (splits: seq<real>)
      modifies this`attributeSplitCount
      ensures splits == BinSpec(ScanChooser(log2), old(attributeSplitCount), p, n, values).0
      ensures attributeSplitCount == BinSpec(ScanChooser(log2), old(attributeSplitCount), p, n, values).1
      decreases |values|
    {
      if attributeSplitCount > MaxSplits {
        BinSpecUnchosen(ScanChooser(log2), attributeSplitCount, p, n, values);
        return [];
      }
      if |values| == 0 || n + p == 0 {
        BinSpecUnchosen(ScanChooser(log2), attributeSplitCount, p, n, values);
        return [];
      } else if |values| == 1 {
        BinSpecUnchosen(ScanChooser(log2), attributeSplitCount, p, n, values);
        return [];
      }
      var found, threshold, bestLb, bestRb, pLeftBest, nLeftBest := ChooseBoundary(log2, p, n, values);
      if !found {
        BinSpecUnchosen(ScanChooser(log2), attributeSplitCount, p, n, values);
        return [];
      }
      ghost var count := attributeSplitCount;
      ghost var best := Boundary(bestLb, bestRb);
      // subList never throws here: 1 <= bestLb < bestRb <= |values|
      var head, tail := values[..bestLb], values[bestRb..];
      var leftValues := Bin(pLeftBest, nLeftBest, head);
      ghost var leftCount := attributeSplitCount;
      var pRight, nRight := p - pLeftBest, n - nLeftBest;
      var rightValues := Bin(pRight, nRight, tail);
      BinAtResult(ScanChooser(log2), count, p, n, values, best, pLeftBest, nLeftBest, leftValues, leftCount,
                  pRight, nRight, rightValues, attributeSplitCount);
      BinSpecChosen(ScanChooser(log2), count, p, n, values, best);
      splits := leftValues + [threshold] + rightValues;
      attributeSplitCount := attributeSplitCount + 1;
    }

    // -------------------------------------------------------------------
    // Lookups

    /** The text of a value (toString). */
    function Show(value: Datum): string
    {
      match value
      case Text(s) => s
      case Number(Finite(x)) => render(x)
      case Number(Infinity) => "Infinity"
    }

    /** containedIn: for a numeric attribute, whether both values fall in
        the same bin; otherwise string equality with the value's text. */
    function ContainedIn(attribute: string, input: string, value: Datum): Result<bool>
      reads this`processed, this`discretised
    {
      if !processed then Err(NullPointer)
      else if attribute in discretised then
        var ranges := discretised[attribute];
        match parse(input)
        case None => Err(NumberFormat)
        case Some(x) =>
          match value
          case Text(_) => Err(ClassCast)
          case Number(b) => Ok(BinIndex(ranges, Finite(x)) == BinIndex(ranges, b))
      else Ok(input == Show(value))
    }

    /** getLabel: the edge label of a value. */
    function GetLabel(attribute: string, value: Datum): Result<Label>
      reads this`processed, this`discretised
    {
      if !processed then Err(NullPointer)
      else if attribute in discretised then
        var v := match value
                 case Number(b) => Some(b)
                 case Text(s) => if parse(s).Some? then Some(Finite(parse(s).value)) else None;
        if v.None? then Err(NumberFormat)
        else
          var list := discretised[attribute];
          var bin := BinIndex(list, v.value);
          if bin == |list| - 1 then
            if |list| < 2 then Err(IndexOutOfBounds) else Ok(Above(list[|list| - 2]))
          else if bin == 0 then Ok(AtMost(list[0]))
          else Ok(Between(list[bin - 1], list[bin]))
      else Ok(Shown(Show(value)))
    }

    /** size: the number of domain values, -1 for an unknown attribute. */
    function Size(attribute: string): Result<int>
      reads this
    {
      if attribute in stringValues then Ok(|stringValues[attribute]|)
      else if !processed then Err(NullPointer)
      else if attribute in discretised then Ok(|discretised[attribute]|)
      else Ok(-1)
    }

    /** get: the domain values (categorical strings or numeric
        thresholds), None (null) for an unknown attribute. */
    function Get(attribute: string): Result<Option<seq<Datum>>>
      reads this
    {
      if attribute in stringValues then Ok(Some(Texts(stringValues[attribute])))
      else if !processed then Err(NullPointer)
      else if attribute in discretised then Ok(Some(Numbers(discretised[attribute])))
      else Ok(None)
    }

    /** getSublist: the first `size` domain values; subList(0, size)
        rejects a negative size as an illegal argument and a size past the
        end as out of bounds. */
    function GetSublist(attribute: string, size: int): Result<seq<Datum>>
      reads this
    {
      if attribute in stringValues then
        var list := stringValues[attribute];
        if size < 0 then Err(IllegalArgument)
        else if size > |list| then Err(IndexOutOfBounds)
        else Ok(Texts(list[..size]))
      else if !processed then Err(NullPointer)
      else if attribute in discretised then
        var list := discretised[attribute];
        if size < 0 then Err(IllegalArgument)
        else if size > |list| then Err(IndexOutOfBounds)
        else Ok(Numbers(list[..size]))
      else Err(NullPointer)
    }

    /** shuffle: a categorical domain is permuted in place; other
        attributes are left alone. */
    method Shuffle(attribute: string)
      requires Valid()
      modifies this`stringValues
      ensures Valid()
      ensures stringValues.Keys == old(stringValues).Keys
      ensures forall a :: a in stringValues ==> multiset(stringValues[a]) == multiset(old(stringValues)[a])
      ensures forall a :: a in stringValues && a != attribute ==> stringValues[a] == old(stringValues)[a]
    {
      if attribute !in stringValues {
        return;
      }
      var list := stringValues[attribute];
      assert multiset(list) == multiset(list);
      var shuffled :| multiset(shuffled) == multiset(list);
      PermutationDistinct(list, shuffled);
      stringValues := stringValues[attribute := shuffled];
    }

    // -------------------------------------------------------------------
    // Properties of the lookups

    /** containedIn is reflexive: a value is contained in itself. */
    lemma ContainedInReflexive(attribute: string, s: string)
      requires processed
      ensures attribute !in discretised ==> ContainedIn(attribute, s, Text(s)) == Ok(true)
      ensures attribute in discretised && parse(s).Some? ==>
        ContainedIn(attribute, s, Number(Finite(parse(s).value))) == Ok(true)
    {
    }

    /** containedIn is symmetric. */
    lemma ContainedInSymmetric(attribute: string, s: string, t: string)
      ensures attribute !in discretised ==> ContainedIn(attribute, s, Text(t)) == ContainedIn(attribute, t, Text(s))
      ensures attribute in discretised && parse(s).Some? && parse(t).Some? ==>
        ContainedIn(attribute, s, Number(Finite(parse(t).value))) ==
        ContainedIn(attribute, t, Number(Finite(parse(s).value)))
    {
    }

    /** An input contained in a domain value gets that value's label, so
        the edge it follows in a tree is the one built for the value. */
    lemma ContainedInSameLabel(attribute: string, input: string, value: Datum)
      requires ContainedIn(attribute, input, value) == Ok(true)
      ensures GetLabel(attribute, Text(input)) == GetLabel(attribute, value)
    {
    }

    /** A numeric label describes the interval of thresholds holding the
        value; with only the sentinel there is no label at all. */
    lemma GetLabelInterval(attribute: string, x: real)
      requires Valid() && processed && attribute in discretised
      ensures var list := discretised[attribute];
        var r := GetLabel(attribute, Number(Finite(x)));
        (|list| < 2 <==> r == Err(IndexOutOfBounds)) &&
        (r.Ok? && r.value.AtMost? ==> r.value.t.Finite? && x <= r.value.t.t) &&
        (r.Ok? && r.value.Above? ==> r.value.t.Finite? && r.value.t.t < x) &&
        (r.Ok? && r.value.Between? ==> r.value.lo.Finite? && r.value.lo.t < x && BoundLe(Finite(x), r.value.hi))
    {
      var list := discretised[attribute];
      var bin := BinIndex(list, Finite(x));
      BinIndexInterval(list, x, bin);
      if |list| >= 2 && bin == |list| - 1 {
        assert !BoundLe(Finite(x), list[|list| - 2]);
      }
    }

    /** size and get agree: the size is the length of the domain, -1 for
        null, and both fail together. */
    lemma SizeMatchesGet(attribute: string)
      ensures Size(attribute).Err? <==> Get(attribute).Err?
      ensures Get(attribute).Ok? && Get(attribute).value.Some? ==>
        Size(attribute) == Ok(|Get(attribute).value.value|)
      ensures Get(attribute) == Ok(None) <==> Size(attribute) == Ok(-1)
    {
    }

    /** getSublist is the prefix of get's list; a negative size is an
        illegal argument and a size past the end is out of bounds. */
    lemma SublistIsPrefix(attribute: string, size: int)
      requires Get(attribute).Ok? && Get(attribute).value.Some?
      ensures var list := Get(attribute).value.value;
        (0 <= size <= |list| ==> GetSublist(attribute, size) == Ok(list[..size])) &&
        (size < 0 ==> GetSublist(attribute, size) == Err(IllegalArgument)) &&
        (size > |list| ==> GetSublist(attribute, size) == Err(IndexOutOfBounds))
    {
      if attribute in stringValues {
        var list := stringValues[attribute];
        if 0 <= size <= |list| {
          assert Texts(list[..size]) == Texts(list)[..size];
        }
      } else {
        var list := discretised[attribute];
        if 0 <= size <= |list| {
          assert Numbers(list[..size]) == Numbers(list)[..size];
        }
      }
    }

    /** A categorical domain lists each value once. */
    lemma CategoricalDomainDistinct(attribute: string)
      requires Valid() && attribute in stringValues
      ensures Get(attribute).Ok? && Get(attribute).value.Some? && Distinct(Get(attribute).value.value)
    {
      var list := stringValues[attribute];
      assert Distinct(list);
    }
  }

  /** `l` lists the elements of `s`, each once. */
  ghost predicate ListsSet(l: seq<string>, s: set<string>)
  {
    Distinct(l) && forall x :: x in l <==> x in s
  }

  function Texts(l: seq<string>): (r: seq<Datum>)
  {
    seq(|l|, i requires 0 <= i < |l| => Text(l[i]))
  }

  function Numbers(l: seq<Bound>): (r: seq<Datum>)
  {
    seq(|l|, i requires 0 <= i < |l| => Number(l[i]))
  }
}
