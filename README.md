# Decision-tree learner: a Dafny model

This project models the core of `decisiontrees`, a Java learner for binary
classification trees. It learns from a list of training rows (CSV records)
whose class column a classifier maps to "+" or "-". There are three parts.

- **AttributeSet** collects the values of every input attribute. An
  attribute whose first value parses as a number is numeric; every other
  attribute is categorical. When the last attribute has been put, the sets
  of categorical values become lists. Each numeric attribute is discretised
  by recursive supervised binning, which maximises information gain and has
  a split budget. The set answers `containedIn`, `getLabel`, `size`, `get`,
  `getSublist` and `shuffle` for the learner.
- **DepthFirstTree** builds the tree greedily, depth first. A node with no
  examples becomes a leaf voting its parent's majority. A node whose
  examples share one class becomes a leaf of that class. Any other node
  splits on the attribute of highest information gain, with one subtree per
  distinct edge label. The tree is pruned bottom-up: a node whose children
  are all leaves collapses into a majority leaf when a chi-squared test
  finds the split not significant. `predict` walks the tree along the
  labels of an input row.
- **Helpers** holds the majority vote, the "all examples share one class"
  test and the binomial entropy.

The Dafny files follow that structure:

- `helpers.dfy` (module `Helpers`): the example and classifier types, the
  class counts `Positives` and `Negatives`, `Majority`,
  `SameClassification`, `BinomialEntropy`, and `FirstMax`. `FirstMax` is
  the greedy running maximum that the source's scans keep.
- `binning.dfy` (module `Binning`): the specification of `bin` as the
  function `BinSpec`, its boundary search, and the scan loops proved
  against it. Also `Discretise`, which is one attribute of
  `discretiseAllNumericAttributes`, and `findBin`.
- `attribute_set.dfy` (module `Attributes`): the class `AttributeSet`.
  `Put` and the discretisation loop are methods over its fields. The
  lookups are functions reading its state.
- `depth_first_tree.dfy` (module `Trees`): the class `DepthFirstTree`.
  Building, counting, importance and pruning are methods. Pruning mutates
  the tree in place. Prediction is a function over the tree. `Learn` is the
  public constructor and `GetAttributeValues` its first phase. The function
  `ImportanceOf` is the information gain the learner computes for one
  attribute, given the categorical domain lists as they stand after that
  attribute's shuffle. `ImportanceScan` says that a scan of the attributes
  in iteration order scored each one with `ImportanceOf`.

Java exceptions are values: each fallible operation returns a
`Result`/`Option`. Its error is the exception class the source would throw
(`NullPointer`, `IndexOutOfBounds`, `NumberFormat`, `ClassCast`,
`UnsupportedOperation`, `IllegalArgument`).

Three facts about the code shape the model:

- The split budget of `bin` (`MAX_SPLITS = 10`) does not bound the number of
  thresholds. The counter is tested before the search but increased only
  after both recursive calls return. So every call along the left spine of
  the recursion sees the counter at its start value, 0. A right call sees
  the counter its parent started with, raised by the thresholds of the
  left subtree. `Binning.BinSpecCounter` states exactly what the counter
  does: it ends at its start value plus the number of thresholds returned.
- `bin` computes its goal entropy with a `getBooleanEntropy` that `Helpers`
  does not define. The model uses the binomial entropy of `Helpers` there.
- The threshold lists are proved non-decreasing. Strictly ascending order
  is not proved (see Left out).

## Model

| member | source | states |
|---|---|---|
| Helpers.PositivesPlusNegatives | src/main/java/com/mraguzin/decisiontrees/Helpers.java:19-24 | every example is counted exactly once, as "+" or as "-" |
| Helpers.Majority | src/main/java/com/mraguzin/decisiontrees/Helpers.java:14-32 | "+" when "+" outnumbers "-", "-" when "-" outnumbers "+", and the random tie-break exactly on a tie |
| Helpers.SameClassification | src/main/java/com/mraguzin/decisiontrees/Helpers.java:34-49 | the first result is true exactly when all examples share one class; the second is then the first example's class, and false when the classes differ or there are no examples |
| Helpers.BinomialEntropy | src/main/java/com/mraguzin/decisiontrees/Helpers.java:51-59 | the entropy is exactly 0 at q = 0 and at q = 1 |
| Helpers.FirstMax | src/main/java/com/mraguzin/decisiontrees/DepthFirstTree.java:169-185 | the kept position is the first value strictly above the floor and every earlier value; later values are not greater; nothing is kept exactly when no value exceeds the floor |
| Binning.PrefixTotal | src/main/java/com/mraguzin/decisiontrees/AttributeSet.java:265-296 | the "+" and "-" counts of a prefix add up to its length |
| Binning.SortByValueCorrect | src/main/java/com/mraguzin/decisiontrees/AttributeSet.java:228 | the sort by value returns a sorted permutation that keeps the order of equal values |
| Binning.RunEnd | src/main/java/com/mraguzin/decisiontrees/AttributeSet.java:288-299 | the end of the run of entries equal to x: every entry of the run equals x, and the next entry (if any) differs |
| Binning.Candidates | src/main/java/com/mraguzin/decisiontrees/AttributeSet.java:275-321 | every candidate boundary satisfies 1 <= lb < rb <= the list length |
| Binning.GainsAt | src/main/java/com/mraguzin/decisiontrees/AttributeSet.java:300-311 | the k-th recorded gain is the information gain of the k-th candidate boundary |
| Binning.BestBoundary | src/main/java/com/mraguzin/decisiontrees/AttributeSet.java:312-319 | the chosen boundary lies inside the list |
| Binning.BestBoundaryIsBest | src/main/java/com/mraguzin/decisiontrees/AttributeSet.java:263-324 | no boundary exactly when no candidate gains more than Double.MIN_VALUE; otherwise the first candidate of strictly maximal gain |
| Binning.BinSpecCounter | src/main/java/com/mraguzin/decisiontrees/AttributeSet.java:250-351 | the split counter after bin is the counter before plus the number of thresholds returned |
| Binning.BinAtCounter | src/main/java/com/mraguzin/decisiontrees/AttributeSet.java:327-351 | the same counter fact for the recursive step at a boundary |
| Binning.BinSpecEmpty | src/main/java/com/mraguzin/decisiontrees/AttributeSet.java:250-255 | an exhausted budget, fewer than two entries, no examples or no gaining boundary give no thresholds and leave the counter alone |
| Binning.BinSpecOrdered | src/main/java/com/mraguzin/decisiontrees/AttributeSet.java:347-350 | on sorted entries the thresholds are non-decreasing and lie between the smallest and the largest entry |
| Binning.ChooseBoundary | src/main/java/com/mraguzin/decisiontrees/AttributeSet.java:261-324 | finds a boundary exactly when BestBoundary does; the threshold is the midpoint at lb, and the left counts are those of the entries before rb |
| Binning.FindBestBoundary | src/main/java/com/mraguzin/decisiontrees/AttributeSet.java:261-321 | the scan returns BestBoundary's choice, its midpoint threshold and the class counts of the entries before rb |
| Binning.Scan | src/main/java/com/mraguzin/decisiontrees/AttributeSet.java:275-321 | the outer loop ends past the last entry with the scan invariant (best gain so far, boundaries seen in order) |
| Binning.ScanStep | src/main/java/com/mraguzin/decisiontrees/AttributeSet.java:276-320 | one round advances the position and keeps the scan invariant |
| Binning.SkipRun | src/main/java/com/mraguzin/decisiontrees/AttributeSet.java:283-299 | the inner loop stops at the end of the run of equal values, with the class counts of everything before it and the last class seen |
| Binning.ConsiderBoundary | src/main/java/com/mraguzin/decisiontrees/AttributeSet.java:300-319 | a boundary replaces the best one exactly when its gain is strictly greater, and the kept best stays the running maximum over the boundaries seen |
| Binning.ScanDone | src/main/java/com/mraguzin/decisiontrees/AttributeSet.java:323-324 | at the end of the scan, "threshold not NaN" holds exactly when BestBoundary finds a boundary, whose bounds and counts were kept |
| Binning.DiscretiseWellFormed | src/main/java/com/mraguzin/decisiontrees/AttributeSet.java:223-237 | every threshold list is finite non-decreasing thresholds then the +infinity sentinel, and each finite threshold lies between two observed values |
| Binning.BinIndex | src/main/java/com/mraguzin/decisiontrees/AttributeSet.java:165-174 | the bin is the first threshold at or above the value, or the last position when none is |
| Binning.FindBin | src/main/java/com/mraguzin/decisiontrees/AttributeSet.java:165-174 | the early-exit loop returns exactly BinIndex |
| Binning.BinIndexMonotone | src/main/java/com/mraguzin/decisiontrees/AttributeSet.java:165-174 | a larger value never lands in an earlier bin |
| Binning.BinIndexInterval | src/main/java/com/mraguzin/decisiontrees/AttributeSet.java:165-174 | on a well-formed list every value has a bin, and bin i is the interval (threshold i-1, threshold i] |
| Attributes.Enumerate | src/main/java/com/mraguzin/decisiontrees/AttributeSet.java:94-99 | the iteration of a hash set or map visits each element exactly once |
| Attributes.FirstUnparsable | src/main/java/com/mraguzin/decisiontrees/AttributeSet.java:60-72 | all values before the position parse, and the value at it does not |
| Attributes.DiscretiseAllWellFormed | src/main/java/com/mraguzin/decisiontrees/AttributeSet.java:223-237 | every numeric attribute gets a well-formed threshold list, and no other attribute does |
| Attributes.AsWrittenFailsWithoutSplits | src/main/java/com/mraguzin/decisiontrees/AttributeSet.java:230-233 | as written, discretisation throws exactly when the corrected one yields the sentinel alone, and agrees with it otherwise |
| Attributes.SingleObservationThrows | src/main/java/com/mraguzin/decisiontrees/AttributeSet.java:249-255 | as written, a numeric attribute observed once throws; corrected, it gets a single bin |
| Attributes.AttributeSet.constructor | src/main/java/com/mraguzin/decisiontrees/AttributeSet.java:30-34 | the attribute count is one less than given (the class column is excluded), and the class counts are kept |
| Attributes.AttributeSet.Put | src/main/java/com/mraguzin/decisiontrees/AttributeSet.java:47-107 | the counter rises by one; an empty list or a put after post-processing throws; a numeric attribute appends its values up to the first unparsable one (which throws); a categorical one adds its strings; the last put post-processes |
| Attributes.AttributeSet.CollectNumbers | src/main/java/com/mraguzin/decisiontrees/AttributeSet.java:58-72 | appends the parsed prefix of the values and fails with NumberFormat exactly when some value does not parse |
| Attributes.AttributeSet.CollectStrings | src/main/java/com/mraguzin/decisiontrees/AttributeSet.java:75-88 | adds every string of the values to the attribute's set, creating it if absent |
| Attributes.AttributeSet.PostProcess | src/main/java/com/mraguzin/decisiontrees/AttributeSet.java:93-105 | turns the collected sets into domain lists, discretises every collected numeric list, and drops the collecting maps |
| Attributes.AttributeSet.ListDomains | src/main/java/com/mraguzin/decisiontrees/AttributeSet.java:94-99 | each categorical domain list holds its set's elements, each exactly once |
| Attributes.AttributeSet.DiscretiseAllNumericAttributes | src/main/java/com/mraguzin/decisiontrees/AttributeSet.java:223-237 | the threshold map is DiscretiseAll of the collected numeric lists |
| Attributes.AttributeSet.DiscretiseOne | src/main/java/com/mraguzin/decisiontrees/AttributeSet.java:228-233 | one attribute's thresholds are Discretise of its observations |
| Attributes.AttributeSet.Bin | src/main/java/com/mraguzin/decisiontrees/AttributeSet.java:249-354 | the recursion returns BinSpec's thresholds and leaves the split counter where BinSpec says |
| Attributes.AttributeSet.Shuffle | src/main/java/com/mraguzin/decisiontrees/AttributeSet.java:199-205 | permutes the domain list of the given attribute and changes no other list |
| Attributes.AttributeSet.ContainedInReflexive | src/main/java/com/mraguzin/decisiontrees/AttributeSet.java:122-134 | a value is contained in itself |
| Attributes.AttributeSet.ContainedInSymmetric | src/main/java/com/mraguzin/decisiontrees/AttributeSet.java:122-134 | containment of two values does not depend on their order |
| Attributes.AttributeSet.ContainedInSameLabel | src/main/java/com/mraguzin/decisiontrees/AttributeSet.java:122-163 | an input contained in a value gets the same edge label as that value |
| Attributes.AttributeSet.GetLabelInterval | src/main/java/com/mraguzin/decisiontrees/AttributeSet.java:143-163 | a numeric label is the interval of the value's bin; it throws IndexOutOfBounds exactly when there are fewer than two thresholds |
| Attributes.AttributeSet.SizeMatchesGet | src/main/java/com/mraguzin/decisiontrees/AttributeSet.java:181-213 | size is the length of get's list, and -1 exactly when get returns null |
| Attributes.AttributeSet.SublistIsPrefix | src/main/java/com/mraguzin/decisiontrees/AttributeSet.java:207-221 | getSublist is the prefix of get's list; a negative size throws IllegalArgument (subList's fromIndex > toIndex) and a size past the end throws IndexOutOfBounds |
| Attributes.AttributeSet.CategoricalDomainDistinct | src/main/java/com/mraguzin/decisiontrees/AttributeSet.java:94-99 | a categorical domain list has no duplicates |
| Trees.Distribution | src/main/java/com/mraguzin/decisiontrees/DepthFirstTree.java:313-329 | the counts are non-negative and at most the number of examples, and without a filter they add up to it |
| Trees.DistributionOfAll | src/main/java/com/mraguzin/decisiontrees/DepthFirstTree.java:313-329 | without a filter the counts are the "+" and "-" counts of the examples |
| Trees.DistributionOfMatching | src/main/java/com/mraguzin/decisiontrees/DepthFirstTree.java:313-329 | with a value filter the counting throws exactly when selecting the sub-examples does, and otherwise counts the classes of those sub-examples |
| Trees.Counts | src/main/java/com/mraguzin/decisiontrees/DepthFirstTree.java:357-361 | one count pair per domain value |
| Trees.PureSplitFullGain | src/main/java/com/mraguzin/decisiontrees/DepthFirstTree.java:340-372 | a split whose every value holds one class only has remainder 0, so its importance is the node's whole entropy |
| Trees.UninformativeSplitNoGain | src/main/java/com/mraguzin/decisiontrees/DepthFirstTree.java:340-372 | a split whose one value holds every example has importance 0 |
| Trees.TallyCountsSet | src/main/java/com/mraguzin/decisiontrees/DepthFirstTree.java:261-269 | counting children's votes one by one over a duplicate-free order counts the set of children with that vote |
| Trees.DepthFirstTree.Init | src/main/java/com/mraguzin/decisiontrees/DepthFirstTree.java:55-64 | a node starts with its attributes, examples and shared domains, no children and no root attribute |
| Trees.DepthFirstTree.BuildDecisionTree | src/main/java/com/mraguzin/decisiontrees/DepthFirstTree.java:140-218 | no examples give a leaf voting the parent's majority; examples of one class give a leaf of that class; otherwise the returned scan lists every attribute once with its importance on the returned domain lists (a reordering of the domains on entry), and the node is a majority leaf when no importance exceeds Double.MIN_VALUE, and otherwise splits on the first attribute of strictly maximal importance, with one child per label, each child holding the examples of its value, and empty children voting this node's majority (corrected; the source throws NullPointerException) |
| Trees.DepthFirstTree.GrowChildren | src/main/java/com/mraguzin/decisiontrees/DepthFirstTree.java:190-216 | after the loop over the domain the children split on the attribute, and empty children vote this node's majority |
| Trees.DepthFirstTree.GrowAll | src/main/java/com/mraguzin/decisiontrees/DepthFirstTree.java:198-216 | the loop handles every value: each has a label keying a child built from the examples of one value with that label |
| Trees.DepthFirstTree.Branch | src/main/java/com/mraguzin/decisiontrees/DepthFirstTree.java:199-215 | a value whose label is already handled changes nothing; a new label adds its subtree; the handled set stays the children's labels |
| Trees.DepthFirstTree.NewBranch | src/main/java/com/mraguzin/decisiontrees/DepthFirstTree.java:204-215 | a new label adds exactly one child, under that label |
| Trees.DepthFirstTree.Attach | src/main/java/com/mraguzin/decisiontrees/DepthFirstTree.java:215 | putting the subtree keeps the tree valid and adds its label to the children |
| Trees.DepthFirstTree.Subtree | src/main/java/com/mraguzin/decisiontrees/DepthFirstTree.java:191-193 | the subtree gets the sub-examples and this node's attributes without the split attribute; an empty one is a leaf voting this node's majority |
| Trees.DepthFirstTree.AddChild | src/main/java/com/mraguzin/decisiontrees/DepthFirstTree.java:215 | the child map gains exactly the new label and subtree |
| Trees.DepthFirstTree.ExampleDistribution | src/main/java/com/mraguzin/decisiontrees/DepthFirstTree.java:313-329 | the counting loop returns Distribution, exceptions included |
| Trees.DepthFirstTree.SubExamples | src/main/java/com/mraguzin/decisiontrees/DepthFirstTree.java:204-208 | the selection loop returns the examples contained in the value, in order |
| Trees.DepthFirstTree.GetImportance | src/main/java/com/mraguzin/decisiontrees/DepthFirstTree.java:340-372 | the importance is ImportanceOf on the new domain lists: the node entropy minus the remainder over the chosen values; only the attribute's own list may be reordered |
| Trees.DepthFirstTree.ChooseValues | src/main/java/com/mraguzin/decisiontrees/DepthFirstTree.java:348-355 | the first MULTIVALUE_THRESHOLD values of the attribute's shuffled domain when it is larger, the whole domain otherwise; an attribute without a domain throws NullPointer; no other list changes |
| Trees.DepthFirstTree.SelectAttribute | src/main/java/com/mraguzin/decisiontrees/DepthFirstTree.java:169-185 | every attribute scanned other than the class column has exactly the importance ImportanceOf gives it on the final domain lists; the chosen attribute is the first of strictly maximal importance above Double.MIN_VALUE in iteration order, and nothing is chosen when no importance exceeds the floor; a failure is the failing importance of the next attribute |
| Trees.DepthFirstTree.ScoreNext | src/main/java/com/mraguzin/decisiontrees/DepthFirstTree.java:175-180 | the class column gets no score; any other attribute gets its importance on the domains after its own shuffle, or that importance's failure; the earlier scores still hold |
| Trees.DepthFirstTree.SplitOnBest | src/main/java/com/mraguzin/decisiontrees/DepthFirstTree.java:168-217 | the scan of SelectAttribute is returned; with nothing selected the node is a majority leaf, and otherwise it splits on the attribute at FirstMax of the importances (corrected; the source throws NullPointerException) |
| Trees.DepthFirstTree.SplitOnChosen | src/main/java/com/mraguzin/decisiontrees/DepthFirstTree.java:187-216 | the root is labelled with the selected attribute, which the children then split on |
| Trees.DepthFirstTree.NoGainThrowsAsWritten | src/main/java/com/mraguzin/decisiontrees/DepthFirstTree.java:170-198 | as written, importances of 0 select nothing, and splitting on "" then throws NullPointer |
| Trees.DepthFirstTree.RemainderOver | src/main/java/com/mraguzin/decisiontrees/DepthFirstTree.java:357-368 | the loop returns the weighted remainder of the values' class counts, and the first counting failure |
| Trees.DepthFirstTree.PredictFrom | src/main/java/com/mraguzin/decisiontrees/DepthFirstTree.java:129-138 | an answer is the class of one of the tree's leaves; the only failures are null, parse and index exceptions |
| Trees.DepthFirstTree.Predict | src/main/java/com/mraguzin/decisiontrees/DepthFirstTree.java:119-127 | throws IllegalArgument exactly when the input's width is not the number of training attributes, and otherwise walks the tree |
| Trees.DepthFirstTree.PredictReadsAttributes | src/main/java/com/mraguzin/decisiontrees/DepthFirstTree.java:129-138 | the prediction depends only on the input's cells for the tree's attributes |
| Trees.DepthFirstTree.SplitsOnOwnAttribute | src/main/java/com/mraguzin/decisiontrees/DepthFirstTree.java:187-193 | every attribute split on in a subtree is one of its attributes and never the class |
| Trees.DepthFirstTree.NoRepeatedSplit | src/main/java/com/mraguzin/decisiontrees/DepthFirstTree.java:191-193 | no path splits twice on the same attribute |
| Trees.DepthFirstTree.ClassNeverRemoved | src/main/java/com/mraguzin/decisiontrees/DepthFirstTree.java:159-193 | the class column stays among every subtree's attributes, so the empty-attributes case never fires |
| Trees.DepthFirstTree.Prune | src/main/java/com/mraguzin/decisiontrees/DepthFirstTree.java:226-287 | true exactly when the node ends as a leaf. A leaf stays as it is; false leaves the node unchanged; a collapse happens only when all children are leaves and the test accepts, and yields the majority of the children's classes. Afterwards every remaining inner node with only leaf children failed the test |
| Trees.DepthFirstTree.Conclude | src/main/java/com/mraguzin/decisiontrees/DepthFirstTree.java:237-286 | with all children leaves, the node collapses exactly when the significance test accepts, and is otherwise unchanged |
| Trees.DepthFirstTree.Collapse | src/main/java/com/mraguzin/decisiontrees/DepthFirstTree.java:259-282 | the node becomes a leaf of the majority class of its children |
| Trees.DepthFirstTree.PruneChildren | src/main/java/com/mraguzin/decisiontrees/DepthFirstTree.java:231-235 | every child is pruned, and the result is true exactly when all children are now leaves |
| Trees.DepthFirstTree.PruneStep | src/main/java/com/mraguzin/decisiontrees/DepthFirstTree.java:233-235 | pruning one child leaves the earlier children alone and reports whether it became a leaf |
| Trees.DepthFirstTree.PruneChild | src/main/java/com/mraguzin/decisiontrees/DepthFirstTree.java:234 | the child is pruned in place and reports whether it is now a leaf |
| Trees.DepthFirstTree.Vote | src/main/java/com/mraguzin/decisiontrees/DepthFirstTree.java:261-278 | "+" when more children are "+" leaves, "-" when more are not, and the coin on a tie |
| Trees.CountClasses | src/main/java/com/mraguzin/decisiontrees/DepthFirstTree.java:84-92 | the "+" and "-" counts of the examples; throws IllegalArgument exactly when an example lacks the class column |
| Trees.CollectColumn | src/main/java/com/mraguzin/decisiontrees/DepthFirstTree.java:102-106 | one (cell, class) pair per example, in order; throws IllegalArgument exactly when an example lacks the column |
| Trees.GetAttributeValues | src/main/java/com/mraguzin/decisiontrees/DepthFirstTree.java:83-110 | the domains hold the class counts and every non-class attribute; they are post-processed exactly when the class column is named and there is another attribute; no examples throw IndexOutOfBounds unless no attribute besides the class column is named; a missing class column with other attributes fails |
| Trees.PutAll | src/main/java/com/mraguzin/decisiontrees/DepthFirstTree.java:96-109 | on success every non-class attribute column is present in the examples and lands in the domains, post-processing happens exactly when the class column is named and another attribute exists; without the class column it fails |
| Trees.PutStep | src/main/java/com/mraguzin/decisiontrees/DepthFirstTree.java:96-108 | one round of that loop skips the class column or puts one more attribute |
| Trees.PutAttribute | src/main/java/com/mraguzin/decisiontrees/DepthFirstTree.java:102-108 | put adds the attribute to the collected ones and post-processes exactly when the counter reaches the attribute count |
| Trees.Learn | src/main/java/com/mraguzin/decisiontrees/DepthFirstTree.java:55-81 | no examples throw (IndexOutOfBounds from the domains, or NullPointer from the missing parent examples); otherwise the root is built as buildDecisionTree promises: a leaf of the one class, or, by the returned scan, a majority leaf when no importance exceeds Double.MIN_VALUE and a split on the first attribute of strictly maximal importance otherwise (corrected; the source throws NullPointerException) |

## Left out

- Floating point: doubles are exact reals. `Math.log(x) / Math.log(2)` is an arbitrary function `log2` passed in. A NaN ratio (an empty value) is a skipped value or an absent gain.
- `Double.valueOf`/`parseDouble` and `Double.toString` are passed in as `parse` and `render`.
- Edge labels are structured values (at most a threshold, above a threshold, between two thresholds, or the text). `DecimalFormat` with two fraction digits is not modelled. So two thresholds that print alike are not merged into one label, as they are in the source.
- Randomness: the tie-breaks in `majority` and `prune` are an arbitrary boolean. `Collections.shuffle` is an arbitrary permutation.
- The chi-squared test of `prune`: the statistic `delta`, `ChiSquaredDistribution` and the quantile at `1 - pvalue` are one predicate `accept`. It gets the node's class counts, the per-value class counts and the degrees of freedom. Its statistics are not modelled.
- Hash-map and hash-set iteration order is an arbitrary duplicate-free order (`Enumerate`).
- Console output (`System.out.println`) is not modelled.
- `drawTree` and `recursiveDraw` (Graphviz rendering to a file) are not part of this model.
- CSV reading and the command-line driver (`DecisionTrees.java`) are not part of this model.
- Java `int` overflow in the counters is not modelled. Every count is bounded by a list length.
- `Binning.DiscretiseWellFormed`: proves the thresholds non-decreasing. It does not prove them strictly ascending.
- `Trees.DepthFirstTree.PredictFrom`: states that an answer is the class of some leaf of the tree, not which leaf the edge labels lead to.
- `Trees.DepthFirstTree.Prune`: says nothing about pruning twice. The source makes no such promise.
- `Trees.DepthFirstTree.BuildDecisionTree`, `Trees.Learn`: state the split attribute only up to the iteration order of the attribute map, which is an arbitrary order returned as a ghost value.
- `Attributes.AttributeSet.Put`, `Attributes.AttributeSet.PostProcess`, `Attributes.AttributeSet.DiscretiseAllNumericAttributes`, `Attributes.AttributeSet.DiscretiseOne`, `Trees.GetAttributeValues`, `Trees.Learn`: model the corrected sentinel handling of the first finding. As written, the source throws UnsupportedOperationException whenever a numeric attribute gets no split: one example, a constant numeric column, or a training set of one class. `Attributes.SingleObservationThrows` and `Attributes.AsWrittenFailsWithoutSplits` state that behaviour.
- `Trees.DepthFirstTree.BuildDecisionTree`, `Trees.DepthFirstTree.SplitOnBest`, `Trees.Learn`: model the corrected no-gain case of the second finding. When `FirstMax(importances, MinDouble)` is None they make a leaf of the majority class. As written, the source keeps `maxAttribute` as `""` (DepthFirstTree.java:170, 181-187), `get("")` returns null (AttributeSet.java:207-213), and the loop at DepthFirstTree.java:198 throws NullPointerException. `Trees.DepthFirstTree.NoGainThrowsAsWritten` states that behaviour.

## Findings

| source | as written | input that shows it | evidently intended | confidence | as-written member | corrected member |
|---|---|---|---|---|---|---|
| src/main/java/com/mraguzin/decisiontrees/AttributeSet.java:232 | every early exit of `bin` returns the immutable `List.of()`, so appending the +infinity sentinel throws UnsupportedOperationException whenever no split is found | a training set with a numeric attribute and one example: a single observation makes `bin` return `List.of()` | an attribute without a split point gets the sentinel alone, one bin, and discretisation goes on (`Binning.DiscretiseWellFormed` proves that list well-formed) | not executed | Attributes.SingleObservationThrows | Attributes.AttributeSet.DiscretiseOne |
| src/main/java/com/mraguzin/decisiontrees/DepthFirstTree.java:170-198 | `maxAttribute` starts as `""` and changes only on an importance above Double.MIN_VALUE; when no attribute gains, `get("")` is null and the loop over it throws NullPointerException | two examples that agree on every (categorical) attribute and differ in class: every importance is 0 (`Trees.UninformativeSplitNoGain`) | the floor is evidently meant to lie below every importance, which admits two readings. (a) Taking Double.MIN_VALUE literally, nothing is selected and the node should become a leaf of the majority class. (b) Reading it as the most negative double, every non-class attribute beats the floor, so a node whose attributes all gain 0 still splits on the first of them; XOR-like data, where each attribute alone gains 0, needs that split. The model takes (a): it keeps the selection rule and its floor exactly as written and changes only the step that throws | not executed | Trees.DepthFirstTree.NoGainThrowsAsWritten | Trees.DepthFirstTree.BuildDecisionTree |
