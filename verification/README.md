# Verified model of Cadabra's symbolic core

This Dafny project models the parts of Cadabra that decide what an expression
means: the combinatorial engine, Young tableaux, the expression normaliser, the
linked tree it works on, and the matching of products. It states what each part
promises in mathematical terms and proves it for all inputs.
`dafny verify dfyconfig.toml` checks the whole project.

**Combinations and signs** (`Signs`, `Generator`, `Pruning`, `Counting`, `Cosets`,
`Combinations`). `Signs` compares the crossing-off loops of `ordersign` with the
inversion sign. `Generator` defines the backtracking of `nextstep` as a list of
vectors and says which vectors it is, in which order; `Combinations` is the class
itself, which pushes and pops its state and hands that list to `vector_generated`.
`Pruning` says when weights prune the search to a filtered list, `Counting` and
`Cosets` how long the list is and what it means under `input_asym`.

**Symmetrisers and tableaux** (`Symmetry`, `Symmetriser`, `SymmetriserCollect`,
`Tableaux`, `Projector`, `ProjectorRows`, `Garnir`, `StandardForm`, `Potential`, `Straightening`,
`WorkList`, `TwoRows`). Stored terms are read as formal sums, by the coefficient of every
arrangement. Straightening is read through functions F on tableaux that change
sign inside columns and obey the Garnir relations; `TwoRows` has one that is not
zero. Its work list is shown to
shrink by giving each tableau a potential: a Garnir exchange raises the weight of
a tableau, and the weight is bounded.

**Littlewood-Richardson** (`LittlewoodRichardson`, `LRTensor`, `Hooks`, `Vandermonde`,
`Dimensions`). The
fillings are defined by their rows, columns, content and reading word; the
backtracking of `LR_add_box` is proved to reach each exactly once. `Hooks` has the
hook lengths, and `Dimensions` proves that they always divide the numerator of the
dimension formula: together with the differences of the row lengths the hooks fill
up factorials, and `Vandermonde` divides a product of differences.

**Normaliser** (`Expressions`, `CleanupRules`, `CleanupTheorems`, `CleanupForms`,
`PreCleanRules`, `PreCleanWalk`, `PreCleanForms`, `Cleanup`, `Matrices`). Expressions are trees with a rational multiplier on every
node. Their value is taken in an arbitrary associative algebra in which products
need not commute and opaque nodes mean anything. `CleanupRules` and
`PreCleanRules` say what the rewrites make of a node, `Cleanup` has their loops in
place, the theorems are about values, normal form, termination and idempotence, and
`CleanupForms` and `PreCleanForms` say which nodes and children a rewrite leaves.
`Matrices` shows that two by two matrices are such an algebra and tell `xy` from
`yx` (Matrices.FactorOrderMatters), and that the losses named below change values.

**Collecting** (`HashBins`, `Collecting`, `CollectTerms`). One pair of loops over a
hash map serves `collect_terms` and `symmetriser::collect`; the result does not
depend on the hash.

**Linked tree** (`Forest`, `ForestEdits`, `ForestMoves`, `ForestMeanings`, `ForestCopy`,
`Tree`, `TreeCopy`). A forest gives every node its list of children. `Tree` has the nodes
with their five pointers; `Valid` says that all pointers are those of the forest,
which is what `debug_verify_consistency` checks, and that there are no cycles.
The head and feet of the tree are the ends of the top-level list.

**Matching** (`Moving`, `Matching`, `MatchSigns`). The backtracking of
`match_subproduct` over an arbitrary deterministic matcher of factors, the signs of
`can_move_adjacent`, and what the recorded signs are worth together.

Where code and comments, or code and expectation, differ, the model follows the
code:

- The comment at core/YoungTab.hh:203-204 says that `standard_form` tells whether
  the tableaux were already in standard form. The columns have been sorted by
  then, so it tells whether they are once sorted: it answers true on 2 over 1
  (WorkList.AnswerIsWrong), and WorkList.AnswerIsRight says when the answer is the
  one the comment promises.
- A zero denominator makes `cleanup_frac` stop with the multipliers before it
  already set to one (core/PreClean.cc:40-92). That keeps the value, since the
  inverse of zero absorbs nonzero numbers, except for zero over zero in algebras in
  which multiples do not add up (PreCleanRules.ZeroOverZeroForgets).
- `cleanup_productlike` relies on clean children: it overwrites the multiplier of
  a lone factor (core/Cleanup.cc:108; Matrices.UncleanChildChangesValue) and does
  not look for numbers after a flatten (core/Cleanup.cc:99).
- `collect_terms` drops the multiplier of a sum left with one term, so 3(a+a)
  becomes 2a (core/algorithms/collect_terms.cc:52-73; Matrices.LoneTermChangesValue),
  and can leave equal nested sums (core/algorithms/collect_terms.cc:30-50;
  CollectTermsClass.NoneLeftEqual says exactly when).
- When `two` stands first, `can_move_adjacent` computes the sign of moving `two`
  to the right past `one` and then exchanging the pair, so the pair ends up where
  `one` stood (core/Compare.cc:785-791).
- The signs recorded for a match are multiplied into the substituted product
  (core/algorithms/substitute.cc:300-305) as the sign of moving the factors together.
  For two factors it is; for more, each sign is that of one pair in the product as it
  was before any move, and the pattern acb in a product abc of anticommuting factors
  gets the wrong one (MatchSigns.ThreeFactorsLoseSign; MatchSigns.GatheringSign says
  exactly when it is right).
- Pruning by weight_less loses vectors when weights are negative
  (core/Combinatorics.hh:507-518), and adds vectors when multiple_pick meets ranges
  of input_asym, because an element that is tried again is forgotten
  (core/Combinatorics.hh:595-607; Pruning.PruningAddsVector, Pruning.PruningIsFiltering).
- Symmetrising by value replaces only the first occurrence of a value
  (core/Combinatorics.hh:966-974), so the result is symmetric exactly when no
  permuted value is repeated (SymmetriserClass.SymmetricWhenOnceEach).

## Model

| member | source | states |
|---|---|---|
| Signs.OrderSign | core/Combinatorics.hh:223-246 | the crossing-off loops return the sign obtained by crossing the entries of the first list off the second, for any two lists of which the second is not longer |
| Signs.CrossSignIsSign | core/Combinatorics.hh:223-246 | for two orderings of the same different entries that sign is (-1) to the number of inversions of the permutation between them |
| Signs.CrossSignMultiplicative | core/Combinatorics.hh:223-246 | going from a to c by way of b multiplies the signs |
| Signs.CrossSignTransposition | core/Combinatorics.hh:223-246 | exchanging any two entries of the second ordering flips the sign |
| Signs.TranspositionSign | core/Combinatorics.hh:223-246 | the inversion sign of any list of different numbers flips under any transposition |
| Signs.ComposeSign | core/Combinatorics.hh:223-246 | the sign of a composition of permutations is the product of their signs |
| SymmetriserClass.OrderSignOf | core/Combinatorics.hh:273-280 | the one-range form returns the sign of the permutation itself |
| Generator.SearchMembers | core/Combinatorics.hh:555-615 | from any state in which the had-flags agree with the picks as far as anyone can tell, the vectors produced are exactly the extensions of the picks whose every step is admissible: group order, weight, input_asym order |
| Generator.SearchTraced | core/Combinatorics.hh:577-613 | from any state whatever, multiple picks within ranges included: exactly the extensions whose every pick is admissible for the had-flags as the loop has left them, everything tried before in that slot being forgotten |
| Generator.NothingForgotten | core/Combinatorics.hh:555-615 | with one slot, or ranges without two different elements, nothing that matters is forgotten |
| Generator.SearchSorted | core/Combinatorics.hh:555-615 | from any state they come in strictly increasing lexicographic order, hence each once |
| Generator.SortedUnique | core/Combinatorics.hh:555-615 | the members and that order together determine the list |
| Generator.PlainGenerated | core/Combinatorics.hh:555-615 | without ranges, weights and multiple pick: exactly the vectors of different elements that increase inside every group, in lexicographic order |
| Generator.PlainFirst | core/Combinatorics.hh:328-382 | the first vector is the identity when all elements are placed |
| Pruning.WeightedMembers | core/Combinatorics.hh:507-615 | unless multiple picks within ranges are forgotten, a vector survives the weight conditions exactly when the unweighted search has it, its totals meet the final conditions and no prefix is too heavy |
| Pruning.WeightedIsFiltered | core/Combinatorics.hh:507-615 | then, if the weights under weight_less conditions are non-negative, pruning gives exactly the unweighted list filtered by the final totals, in the same order |
| Pruning.TotalsAsAsked | core/Combinatorics.hh:507-546 | every vector produced has totals equal to, above or below the bound as the conditions ask, whatever else the request says |
| Pruning.NegativeWeightLosesVector | core/Combinatorics.hh:507-546 | a negative weight under weight_less breaks that: a vector whose total is fine is lost |
| Pruning.PruningIsFiltering | core/Combinatorics.hh:507-615 | for sorted ranges: pruning is filtering for all non-negative weights if and only if it is not the case that multiple_pick is set and some element waits for fewer elements than there are slots, all of which wait for none |
| Pruning.ForgettingAddsVector | core/Combinatorics.hh:595-607 | for every such request some non-negative weights make the search produce a vector that it does not produce without weights |
| Pruning.PruningAddsVector | core/Combinatorics.hh:595-607 | the smallest such request: [0, 1] comes out with weights and not without |
| Counting.TotalPermutations | core/Combinatorics.hh:440-445 | total_permutations times (n - len)! times the product of the L_j! is n! |
| Cosets.PermutationsGenerated | core/Combinatorics.hh:376-381 | with unit sublengths over all elements, exactly the permutations in which every range of input_asym turns up in order |
| Cosets.CosetRepresentatives | core/Combinatorics.hh:577-613 | every permutation comes from exactly one generated permutation by rearranging values inside the ranges |
| CombinationsClass.Combinations.NextStep | core/Combinatorics.hh:555-615 | one call hands vector_generated the vectors of the search from the current state, and leaves the vector under construction and current_weight as they were |
| CombinationsClass.Combinations.TryAll | core/Combinatorics.hh:577-613 | the loop over the elements hands out the vectors of the search with any next pick, and restores the state |
| CombinationsClass.Combinations.PlaceElement | core/Combinatorics.hh:577-613 | placing an element, searching on and taking it back adds exactly the vectors with that pick |
| CombinationsClass.Combinations.DiscardedByAsym | core/Combinatorics.hh:577-594 | an element is discarded exactly when one listed before it in its range has not been had |
| CombinationsClass.Combinations.IsAllowedByWeightConstraints | core/Combinatorics.hh:507-518 | true exactly when no weight_less total would reach its bound |
| CombinationsClass.Combinations.FinalWeightConstraintsCheck | core/Combinatorics.hh:519-538 | true exactly when all totals meet their conditions |
| CombinationsClass.Combinations.VectorGenerated | core/Combinatorics.hh:328-339 | counts the call and stores the picked elements when the number of the call lies in [start, end) |
| Generator.SliceSelects | core/Combinatorics.hh:328-339 | the calls stored are, in order, those whose number is not before start and before end |
| CombinationsClass.Combinations.Permute | core/Combinatorics.hh:348-382 | hands out the whole generated list once and appends exactly the elements picked by its slice [start, end) to storage |
| Symmetry.CoefMap | core/Combinatorics.hh:941-978 | the coefficient of an arrangement after permuting all terms is that of the arrangement permuted back |
| Symmetry.SumIsSymmetric | core/Combinatorics.hh:692-894 | the signed sum over all permutations changes by the sign under every transposition of the permuted slots or values |
| SymmetriserClass.PermutationListIs | core/Combinatorics.hh:692-894 | the helpers get every permutation exactly once, and the vector they skip is the identity |
| SymmetriserClass.SymmetrisedIsSum | core/Combinatorics.hh:692-894 | the stored terms after a call, as a formal sum, are the sum over all permutations of sign times the permuted old sum |
| SymmetriserClass.SymmetrisedIsSymmetric | core/Combinatorics.hh:692-894 | that sum is symmetric, or antisymmetric for permutation_sign -1, under exchanging any two permuted slots or values |
| SymmetriserClass.Symmetriser.SlotVectorGenerated | core/Combinatorics.hh:1007-1042 | appends the current arrangement with the contents of slot permute_blocks[vec[k]] in slot permute_blocks[k] for every k and all other slots as they were, its multiplicity times the sign |
| SymmetriserClass.Symmetriser.ValueVectorGenerated | core/Combinatorics.hh:941-978 | appends, for each of the terms there were before the call, that term with the first occurrence of each permuted value replaced |
| SymmetriserClass.Symmetriser.ApplyByLocation | core/Combinatorics.hh:862-886 | by location: to the stored terms are added, term by term, their slot permutations by all permutations but the identity |
| Symmetry.ActPermutesSlots | core/Combinatorics.hh:1030-1040 | the action the results speak of moves the contents of slot blocks[p[k]] to slot blocks[k] and nothing else |
| SymmetriserClass.SlotsAreSymmetric | core/Combinatorics.hh:862-886 | exchanging the contents of two of the permuted slots changes the coefficients of the stored sum by the sign |
| SymmetriserClass.ValuesAreSymmetric | core/Combinatorics.hh:941-978 | by value: so does exchanging two of the permuted values wherever they stand |
| SymmetriserClass.Symmetriser.ApplyByValue | core/Combinatorics.hh:692-894 | by value: to the stored terms are added, for each permutation but the identity, their replacements |
| SymmetriserClass.AppliedIsSymmetrised | core/Combinatorics.hh:963-974 | these are the terms of the signed sum when no permuted value stands twice in a stored arrangement |
| SymmetriserClass.SymmetricWhenOnceEach | core/Combinatorics.hh:963-974 | symmetrising one arrangement in two or more values gives a symmetric sum if and only if it holds none of them twice |
| SymmetriserClass.Symmetriser.ApplySymmetry | core/Combinatorics.hh:692-894 | either way, over all permutations, starting from the original arrangement when nothing is stored yet |
| HashBins.Collector.FillHashMap | core/algorithms/collect_terms.cc:21-28 | the map holds every entry once, ascending in the hash and, within one hash, in the order of insertion |
| HashBins.Collector.CollectFromHashMap | core/algorithms/collect_terms.cc:75-102 | the first of equal entries ends with the sum of their multipliers and the others with zero, for any hash that agrees on equal entries; l_applied exactly when some entry equals an earlier one |
| HashBins.StepErase | core/algorithms/collect_terms.cc:85-92 | erasing one equal entry from the map keeps everything the three loops maintain |
| HashBins.AllSwept | core/algorithms/collect_terms.cc:75-102 | when the map has been passed, an entry is left in it exactly when no earlier one equals it |
| Collecting.CollectedTotal | core/algorithms/collect_terms.cc:75-102 | collecting keeps the total in every commutative group, whatever additive worth the entries have |
| CollectTermsClass.RemoveZeroedTerms | core/algorithms/collect_terms.cc:30-50 | terms without multiplier are erased and nested sums hand theirs to their own terms |
| CollectTermsClass.Apply | core/algorithms/collect_terms.cc:52-73 | when every class of equal terms cancels the node becomes the number zero, whatever its multiplier; otherwise its only term left, or the same sum with at least two terms |
| CollectTermsClass.CollectedIsLike | core/algorithms/collect_terms.cc:75-102 | the first of equal terms is left with the sum of the multipliers of the terms equal to it, the others with zero |
| CollectTermsClass.CancelsIsEmpty | core/algorithms/collect_terms.cc:30-50 | no term is left if and only if the multipliers of every class of equal terms add up to zero |
| CollectTermsClass.CollectRuleValue | core/algorithms/collect_terms.cc:52-102 | the value is kept in every commutative-sum algebra, with an exact account of the one exception: a sum left with one term loses its own multiplier |
| CollectTermsClass.CollectedTermsDiffer | core/algorithms/collect_terms.cc:30-50 | for any comparison that looks at names: no term is left with multiplier zero, and two that compare equal are both sums |
| CollectTermsClass.NoneLeftEqual | core/algorithms/collect_terms.cc:30-50 | for equality up to multipliers: no two equal terms are left if and only if no two sums among the terms, both with nonzero collected multiplier, have the same terms after handing it on |
| CollectTermsClass.NestedSumsStayApart | core/algorithms/collect_terms.cc:39-47 | which happens: 2(a+b) beside 2a+2b leaves 2a+2b twice |
| CollectTermsClass.LoneTermDropsMultiplier | core/algorithms/collect_terms.cc:52-73 | 3(a+a) becomes 2a |
| Matrices.LoneTermChangesValue | core/algorithms/collect_terms.cc:52-73 | and that is worth something else in two by two matrices |
| CollectTermsClass.ExactEquality | core/Storage.cc:226-245 | comparing everything but the multiplier, with a hash that does not see it, meets all that is asked of hash and comparison |
| SymmetriserCollect.Collect | core/Combinatorics.hh:638-671 | the stored terms become the collected ones |
| SymmetriserCollect.RemoveMultiplicityZero | core/Combinatorics.hh:676-690 | exactly the terms of nonzero multiplicity are kept, in order |
| SymmetriserCollect.MergedExact | core/Combinatorics.hh:638-690 | every arrangement keeps its coefficient, for every hash |
| SymmetriserCollect.MergedDistinct | core/Combinatorics.hh:638-690 | no arrangement is stored twice and none with multiplicity zero |
| Projector.Project | core/YoungTab.hh:792-833 | the row and column passes build the terms of the projector |
| ProjectorRows.RowsExact | core/YoungTab.hh:797-815 | after the row pass exactly the arrangements that rearrange the boxes inside their rows are there, each with coefficient one |
| Projector.ProjectorTerms | core/YoungTab.hh:792-833 | these are as many terms as the product of the factorials of all row and column lengths, with factors 1 and -1 |
| Projector.ProjectorAntisymmetric | core/YoungTab.hh:792-833 | the formal sum changes sign when two values of one column are exchanged in every term, later columns notwithstanding |
| Garnir.GarnirRaises | core/YoungTab.hh:731-765 | every Garnir replacement but the identity strictly raises the sum of column number times column sum |
| StandardForm.SortWithinColumns | core/YoungTab.hh:345-355 | columns are sorted and the multiplicity takes the product of the column signs |
| StandardForm.SortColumnsValue | core/YoungTab.hh:345-355 | so multiplicity times F is unchanged for every column-antisymmetric F |
| StandardForm.SortSign | core/YoungTab.hh:345-355 | the sign a column is charged with is its inversion sign |
| StandardForm.NonstandardLoc | core/YoungTab.hh:716-729 | a place found is the first descent of the lowest row that has one; nothing found means all rows increase |
| StandardForm.AddedTotal | core/YoungTab.hh:767-781 | add_tableau adds multiplicity times F to the total, merging and cancelling included |
| StandardForm.AddedMultiplicity | core/YoungTab.hh:767-781 | merging, cancelling and appending add the multiplicity to what is stored for these rows |
| StandardForm.AddedDiffer | core/YoungTab.hh:767-781 | a list without equal tableaux stays one, a list without zero multiplicities too |
| Potential.ExchangedPotential | core/YoungTab.hh:740-762 | an exchange that moves something has at most one B-th of the potential, B more than the number of exchanges |
| Potential.ShuffleCount | core/YoungTab.hh:740-762 | the number of exchanges is below that B |
| Straightening.WriteExchange | core/YoungTab.hh:750-757 | the two inner loops write a shuffle back into the boxes it came from |
| Straightening.StoredSign | core/Combinatorics.hh:454-461 | the sign read off a stored shuffle of different values is that of its index vector |
| WorkList.TableauxList.AddTableau | core/YoungTab.hh:767-781 | the multiplicities stored for any rows grow by that of the new tableau when the rows are its rows and stay the same otherwise; no two tableaux become equal and none gets multiplicity zero |
| WorkList.TableauxList.ReplaceByExchanges | core/YoungTab.hh:740-762 | replacing one tableau by its Garnir exchanges keeps the total and lowers the measure of the list |
| WorkList.TableauxList.StandardForm | core/YoungTab.hh:731-765 | terminates; all tableaux stored are standard; the total is unchanged for every column-antisymmetric F that obeys the Garnir relations; the result says whether all were standard once their columns were sorted; no tableau gets multiplicity zero |
| WorkList.AnswerIsRight | core/YoungTab.hh:203-204 | the result says whether all tableaux were standard if and only if all columns increased or some tableau needs an exchange |
| WorkList.AnswerIsWrong | core/YoungTab.hh:203-204 | so it is wrong on 2 over 1 |
| TwoRows.DifferencesQualify | core/YoungTab.hh:740-762 | on at most two rows, the product of the differences down the columns is column-antisymmetric, obeys the Garnir relations and is not zero |
| LRTensorClasses.Tableau.AddBox | core/YoungTab.cc:91-100 | one more box in the row, rows in between created empty |
| LRTensorClasses.Tableau.RemoveBox | core/YoungTab.cc:102-108 | one box fewer, the last row dropped when the row becomes empty |
| LRTensorClasses.KeeptrackTab.RemoveBox | core/YoungTab.hh:1151-1159 | takes the last box of a row away again |
| LRTensorClasses.PoppedAdded | core/YoungTab.hh:1130-1159 | removing a box right after adding it restores the tableau |
| LRTensorClasses.RulesAllow | core/YoungTab.hh:977-1022 | the three rule checks allow a box exactly when shape, columns and lattice word permit it |
| LRTensorClasses.ViolatesOrdered | core/YoungTab.hh:998-1022 | the right-to-left scan finds a violation exactly when some prefix of the reading word is not a lattice word |
| LRTensorClasses.LRAddBox | core/YoungTab.hh:959-1037 | emits the shapes of the search from the current state and restores newtab and Ycurrent on every return |
| LRTensorClasses.LRTensor | core/YoungTab.hh:1039-1060 | appends the shapes of all fillings found |
| LittlewoodRichardson.SearchExact | core/YoungTab.hh:959-1037 | from any partial filling, each Littlewood-Richardson filling that extends it is reached exactly once, and nothing else |
| LRTensorClasses.LittlewoodRichardsonRule | core/YoungTab.hh:959-1060 | LR_tensor completes exactly the Littlewood-Richardson fillings with at most maxrows rows, each once |
| LRTensorClasses.LRCoefficient | core/YoungTab.hh:959-1060 | every shape is emitted as often as there are such fillings of it |
| Hooks.HookLength | core/YoungTab.cc:72-80 | hook_length is arm plus leg plus one |
| Hooks.HookLengthProd | core/YoungTab.cc:82-89 | hook_length_prod is the product of these over all boxes |
| Hooks.ColumnSizeOf | core/YoungTab.cc:61-69 | column_size is the number of rows that reach the column |
| Hooks.TransposedTwice | core/YoungTab.cc:61-69 | transposing a Young shape twice gives it back |
| Hooks.HookTransposed | core/YoungTab.cc:72-80 | transposing exchanges arm and leg |
| Hooks.HookProductTransposed | core/YoungTab.cc:82-89 | the product of the hook lengths is that of the transposed shape |
| Vandermonde.SuperfactorialDivides | core/YoungTab.cc:56 | the product of the differences of any n integers is a multiple of 0! 1! ... (n - 1)! |
| Dimensions.HooksTimesDifferences | core/YoungTab.cc:82-89 | the product of the hooks times the differences of the spread row lengths is the product of their factorials |
| Dimensions.AlwaysExact | core/YoungTab.cc:56 | the division the source asserts to be exact is exact, for every Young shape and every dimension |
| Dimensions.Dimension | core/YoungTab.cc:47-58 | the result times the hook product is the product of dim + column - row over the boxes, with no assumption on the division |
| Hooks.BinomialDimensions | core/YoungTab.cc:47-58 | on one row and on one column of n boxes it gives C(d+n-1,n) and C(d,n) |
| CleanupRules.TurnProgress | core/Cleanup.cc:17-72 | every turn of the loop that reports a change makes the tree smaller, or keeps its size and lowers a second measure; one that reports none changes nothing |
| CleanupTheorems.TurnClean | core/Cleanup.cc:17-72 | a turn keeps clean children clean, and a node at rest is in normal form |
| CleanupTheorems.TurnValue | core/Cleanup.cc:17-72 | a turn keeps the value when the children are clean |
| CleanupTheorems.DispatchClean | core/Cleanup.cc:11-75 | cleanup_dispatch on a node with clean children ends in normal form |
| CleanupTheorems.DispatchValue | core/Cleanup.cc:11-75 | and keeps the value in every associative, not necessarily commutative algebra |
| CleanupTheorems.DeepClean | core/Algorithm.cc:476-533 | after the deep walk every node meets the sum and product conditions of check_consistency, for every tree |
| CleanupTheorems.DeepValue | core/Cleanup.cc:419-439 | the deep walk keeps the value of every tree under every interpretation of the opaque nodes |
| CleanupTheorems.DeepIdempotent | core/Cleanup.cc:419-439 | a second walk changes nothing, and a tree is in normal form exactly when the walk leaves it as it is |
| CleanupTheorems.ProductLikeValue | core/Cleanup.cc:77-119 | cleanup_productlike keeps the value of any product, clean or not, unless nested products flatten to one factor that carries a multiplier |
| CleanupTheorems.ProductLikeLoses | core/Cleanup.cc:99-108 | in that case the value is off by exactly this multiplier |
| CleanupForms.FlatFactorsAreLeaves | core/Cleanup.cc:83-93 | all nested products are opened, however deep: what is left are the leaves of the tree of products from left to right, and the product of all their multipliers |
| CleanupForms.ProductForm | core/Cleanup.cc:77-119 | any product becomes its leaves, numbers included, or without nested products its factors that are not numbers; none left is a number, a lone one takes over the multiplier |
| CleanupTheorems.UncleanChildLosesFactor | core/Cleanup.cc:99-108 | which happens: a product of a product of an opaque factor leaves the factor without its multiplier |
| Matrices.UncleanChildChangesValue | core/Cleanup.cc:99-108 | and that is worth something else in two by two matrices |
| CleanupTheorems.SumLikeValue | core/Cleanup.cc:121-186 | cleanup_sumlike keeps the value of any sum |
| CleanupForms.SumForm | core/Cleanup.cc:121-186 | any sum keeps its nonzero terms in order, nested sums opened; none left is zero, a lone one takes its place |
| CleanupForms.FlatTermsSplit | core/Cleanup.cc:152-168 | nested sums are opened one level, with their multipliers on their terms |
| CleanupTheorems.NumericalFlatValue | core/Cleanup.cc:339-372 | cleanup_numericalflat keeps the value of any product |
| CleanupTheorems.PushDownValue | core/Cleanup.cc:188-232 | push_down_multiplier keeps the value of any node |
| CleanupForms.PushDownForm | core/Cleanup.cc:188-232 | every term of the sum takes the multiplier, and a term that is a sum is left with multiplier one |
| PreCleanRules.FracRuleValue | core/PreClean.cc:40-92 | cleanup_frac keeps the value of every fraction, zero denominators included; zero over zero only where multiples add up |
| PreCleanForms.FracForm | core/PreClean.cc:40-92 | a fraction without zero denominators becomes a number when all is numbers, its numerator when only numbers stand below, and otherwise a fraction over exactly the denominators that are not numbers, in order; its multiplier times those of the denominators is that of the numerator times its own |
| PreCleanRules.ZeroDenominatorStops | core/PreClean.cc:54-70 | what a zero denominator makes it leave, for every fraction: the multipliers before the first one are one, everything else is as it was |
| PreCleanRules.ZeroOverZeroForgets | core/PreClean.cc:54-70 | for a numerator that is a number or an opaque node: the value is kept in every algebra if and only if the fraction is not zero over zero |
| PreCleanRules.SubRuleValue | core/PreClean.cc:94-124 | cleanup_sub keeps the value |
| PreCleanForms.SubForm | core/PreClean.cc:94-124 | a difference becomes the sum of its nonzero terms in order, all but the first negated, or the only one of them |
| PreCleanWalk.PreDeep | core/PreClean.cc:16-19 | the tree comes out with multiplier zero exactly when a condition on the input tree says so |
| PreCleanWalk.WalkSucceeds | core/PreClean.cc:46-113 | the assertions of cleanup_frac and cleanup_sub hold all through the walk if and only if, in the input tree, every fraction has an argument and every difference has two that are not all zero |
| PreCleanWalk.PreDeepValue | core/PreClean.cc:16-19 | pre_clean_dispatch_deep keeps the value of every such tree without zero over zero, and of every such tree where multiples add up |
| PreCleanWalk.CleanedValue | core/PreClean.cc:5-19 | so does pre-cleaning followed by cleaning, which ends in normal form |
| PreCleanForms.DeepPreCleans | core/PreClean.cc:5-19 | after pre_clean_dispatch_deep no rational name and no difference is left anywhere, and no fraction without zero denominators has a number below or a multiplier on its arguments |
| CleanupClass.Cursor.CleanupNumericalflat | core/Cleanup.cc:339-372 | the in-place loop computes the rewrite and reports whether it changed anything |
| CleanupClass.Cursor.FlattenProducts | core/Cleanup.cc:83-93 | the loop opens all nested products, those inside nested ones included, and collects their multipliers |
| CleanupClass.Cursor.CleanupProductlike | core/Cleanup.cc:77-119 | the whole of cleanup_productlike, in place |
| CleanupClass.Cursor.CleanupSumlike | core/Cleanup.cc:121-186 | the whole of cleanup_sumlike, in place |
| CleanupClass.PushDownMultiplier | core/Cleanup.cc:188-232 | pushes the multiplier into a sum and on into nested sums |
| CleanupClass.Cursor.CleanupDispatch | core/Cleanup.cc:11-75 | the loop terminates with the rewritten node |
| CleanupClass.CleanupDispatchDeep | core/Cleanup.cc:419-439 | the walk computes the rewriting of the whole tree |
| CleanupClass.Cursor.CleanupFrac | core/PreClean.cc:40-92 | cleanup_frac in place, the loop stopping at a zero denominator included |
| CleanupClass.Cursor.CleanupSub | core/PreClean.cc:94-124 | cleanup_sub in place |
| CleanupClass.PreCleanDispatchDeep | core/PreClean.cc:16-19 | the walk computes the pre-cleaned tree |
| Forests.FlattenedNeighbours | core/tree.hh:1475-1500 | flattening changes neighbours only around the node and its former children |
| ForestMeanings.PointersMean | core/tree.hh:1475-1500 | in a valid tree the parent of every child is the node, its neighbours are those in the list, and the node points to both ends of the list |
| ForestMeanings.FlattenedMeans | core/tree.hh:1475-1500 | flatten puts the children behind the node in its list, leaves it none, and changes no other list |
| ForestMoves.FlattenThenErase | core/tree.hh:698-725 | flatten followed by erase replaces a node by its children in the list of its parent and changes no other list |
| ForestMeanings.PutMeans | core/tree.hh:698-725 | erasing or replacing a childless node changes its own list only, at its place |
| ForestEdits.CutMore | core/tree.hh:634-652 | cutting below one node and then below another is cutting below both |
| ForestMeanings.CutMeans | core/tree.hh:634-652 | erasing the children of nodes removes exactly the nodes from which one climbs to them, parent by parent, and changes no list but theirs |
| ForestMoves.MovedWellFormed | core/tree.hh:1503-1550 | moving a range of siblings under a node that is not among or below them leaves a tree |
| ForestMoves.MovedPointersAre | core/tree.hh:1503-1550 | and the pointers it needs are the old ones except at the ends of the three lists |
| ForestMeanings.MovedMeans | core/tree.hh:1503-1550 | the range leaves its list, becomes the end of the list of position, and no other list changes |
| ForestMeanings.AppendedMeans | core/tree.hh:994-1023 | append_child puts the new node at the end of the list of its parent and changes no other list |
| Trees.Tree.Flatten | core/tree.hh:1475-1500 | all five pointers of every node are those of the flattened shape |
| Trees.Tree.EraseChildren | core/tree.hh:634-652 | everything below the node is gone, and all links of the rest are consistent |
| Trees.Tree.Erase | core/tree.hh:698-725 | the node and everything below it are gone, and all links of the rest are consistent |
| Trees.Tree.AppendChild | core/tree.hh:994-1023 | the new node is the last child, and all links are consistent |
| Trees.Tree.Reparent | core/tree.hh:1503-1550 | the range goes to the end of the list of position, which may be the list it came from, and all links are consistent |
| Trees.Tree.ReparentChildren | core/tree.hh:1552-1557 | all children of a node go to the end of the list of position |
| Trees.Tree.ReplaceLeaf | core/tree.hh:1376-1401 | a new node takes the place of one without children |
| ForestCopy.CopyWalks | core/tree.hh:1408-1425 | one step of the copying walk keeps its invariant |
| ForestCopy.NextOrUp | core/tree.hh:1413-1424 | from a node that is done with the walk climbs, or moves on to the next child of the parent |
| ForestCopy.WalkEnds | core/tree.hh:1408-1425 | when the walk leaves the source all of it has been copied |
| TreeCopy.SourceKept | core/tree.hh:1363-1402 | clearing the target leaves a disjoint source as it was |
| TreeCopy.CopyChildren | core/tree.hh:1403-1427 | the iterative loop terminates with a node-for-node copy of the source, data included, and nothing else changed |
| TreeCopy.Replace | core/tree.hh:1363-1428 | so does replace as a whole, for a source disjoint from the replaced subtree, with all links consistent |
| Moving.CanMoveAdjacent | core/Compare.cc:769-822 | the loops return the product of the can_swap signs of all moves, for both orders and both settings of fix_one |
| Moving.MovingValue | core/Compare.cc:769-822 | a nonzero sign is the sign between the product and the product with one immediately left of two, the pair standing where the later of the two stood (so where one stood, when two is first) or, with fix_one, where the earlier stood; in every algebra where exchanging neighbours costs the can_swap sign |
| Moving.MovingSignNonZero | core/Compare.cc:769-822 | the sign is zero exactly when the moving factor does not commute with one it has to pass |
| Matching.Comparator.MatchSubproduct | core/Compare.cc:686-766 | a match is reported exactly when a fitting assignment exists; the locations and bindings are those of the lexicographically first match; the signs recorded are 1 for the first factor and for each later one that of making it a neighbour of the one before; on failure bindings, locations and signs are restored |
| Matching.FitsIsMatch | core/Compare.cc:686-766 | the fitting assignments are exactly the injective ones that match consistently in sequence, can be moved together and meet the conditions |
| MatchSigns.PairSign | core/algorithms/substitute.cc:300-305 | for two pattern factors the recorded signs multiply to the sign between the product and the product with the pair together in the order of the pattern |
| MatchSigns.AdjacentPair | core/Compare.cc:769-822 | in that product the pair stands together in order, and the other factors are as they were |
| MatchSigns.ArrangedValue | core/Compare.cc:769-822 | any rearrangement of a product costs the product of the can_swap signs of the pairs that change their order |
| MatchSigns.GatheringSign | core/algorithms/substitute.cc:300-305 | for any pattern and any place: the recorded signs multiply to the sign of bringing the factors together there if and only if that product of can_swap signs is the same, or the sign makes no difference |
| MatchSigns.ThreeFactorsLoseSign | core/algorithms/substitute.cc:300-305 | a pattern of three anticommuting factors for which it is not |

## Left out

- Blocks longer than one, sub_problem_blocksize, sublengths_scattered, `multiplier`, `alltabs` true: not modelled.
- SymmetriserClass.Symmetriser.ApplySymmetry: a call without a partial range of vectors, sublengths or input_asym of its own; it permutes all blocks or values.
- `projector` with modulo_monoterm, and the overloads of `projector` and `LR_tensor` over lists of tableaux: not modelled.
- Pruning.PruningIsFiltering: takes the ranges of input_asym to be sorted, as `permute` sorts them before it searches.
- Cosets.CosetRepresentatives: takes the ranges of input_asym to be disjoint and sorted; `permute` sorts them, disjointness is up to the caller.
- CombinationsClass.Combinations.Permute: asks for positive sublengths, which the group test at core/Combinatorics.hh:559-562 relies on.
- Projector.Project: asks for different entries, non-empty rows of falling length and a symmetriser that holds nothing yet.
- WorkList.TableauxList.StandardForm: asks for different integer entries and non-empty rows of falling length.
- LRTensorClasses.LRTensor: asks for non-empty rows of falling length and a second tableau that is not empty.
- `vector_generated` as a virtual callback: the calls are a list that the helpers of the symmetriser go through in order, since generating does not read what they store.
- `std::sort` and `std::multimap`: a sorting function, and an insertion behind equal keys.
- List iterators of tableaux: positions in a sequence; filled tableaux are values that are replaced, so aliasing between copies is not captured.
- The walks over whole trees: recursion over child values in place of post-order iterators; the node under the iterator is an object with its children as a sequence, and the linked nodes are modelled separately.
- CollectTermsClass.Apply: stops before pushup_multiplier, which moves multipliers to nodes above; multipliers are written back to the terms after the loops and not during them.
- CollectTermsClass.ExactEquality: takes any hash that does not see the multiplier in place of calc_hash.
- CleanupTheorems.DeepClean: the conditions of check_consistency on sums and products, not those on brackets.
- CleanupClass.Cursor.CleanupDispatch: the cases for numbers, products and sums; derivatives, components, diagonal and Kronecker objects are not modelled.
- CleanupClass.PreCleanDispatchDeep: the cases for numbers, fractions and differences; UP, DN and index brackets are not modelled.
- PreCleanRules.ZeroOverZeroForgets: names numerators that are numbers or opaque nodes; a sum or product in the numerator may be zero of itself.
- Trees.Tree.Erase: the iterator it returns is not modelled; freed nodes leave the set of nodes in use.
- Names, brackets, parent relations, indices, wildcards, derivatives, components, diagonal and Kronecker objects in the cleaning code: semantics outside sums and products.
- `subtree_compare` and `equal_subtree`: parameters, an equality and a deterministic matcher that may change the bindings even when it fails.
- `satisfies_conditions` and `can_swap`: parameters, the latter with values 1, -1 and 0.
- Machine integers: counts, hashes and multiplicities are unbounded; rationals are reals; `dimension` lets its running factor go below zero, where the source has already multiplied by zero.
- Property store, parsers, printers, bindings to Python, networking and user interface: no part of this model.
