# A verified model of waldflam

waldflam serves the Firestore API over MongoDB. This project models the parts of
it whose correctness is hardest to see by reading, and proves what they are for.
The statements are for all inputs, all runs or all reachable states; where one of
them fails of the code, a lemma says exactly when, and another shows a smallest
failing case.
`dafny verify dfyconfig.toml` checks the whole project with Dafny 4.11.

The code that changes things step by step (buffers, loops over vectors, objects
with fields) is modelled by methods and classes, each proved against a function;
the theorems are about those functions.

**Ordered keys.** `Numbers`, `NumberParts`, `NumberEncoding`, `NumberCoder` and
`NumberDecoding` follow the number code: int64 and double are decomposed into one
canonical form, encoded in at most eleven bytes whose order is the exact numeric
order, and decoded again. A double is its IEEE 754 fields with an exact value.
`Values`, `Order`, `IndexKey`, `KeyOrdering`, `KeyWriter` and `Comparing` do the
same for whole values; `KeyPrefixes` tells which keys are prefixes of others.
`Bits`, `Bytes` and `Orderings` are the arithmetic below.

**Planned queries.** `Fields`, `Mirror` and `Indexer` model the stored columns;
`Queries` the filters, orders and cursors; `Predicates` the store's predicate
language, in which a missing column fails every comparison; `Planner` the
translation. `PlanExactness`, `CursorBranches`, `CursorExactness`, `SortKeys`,
`Fetching` and `PlannedQueries` prove that a planned query answers like a scanning
one, and `QueryEngine` that the loops do. `PlannerLimits`, `ArraySpellings` and
`PushedWindows` say what holds where their assumptions end.

**Commits and transactions.** `Transforms`, `Commits`, `CommitTheorems` and
`Committing` model one commit, `BatchEquivalence` compares a batch with its writes
committed one by one; `Transactions` and `TransactionRuns` the optimistic
transactions of one instance under every interleaving, `TransactionAnswers` which
answers of a transaction still stand when it commits.

**Listen.** `Watching` is what a client makes of the messages, `Listening` one
stream, `Coverage` the event pre-filter, and `Convergence` any number of instances
with unpublished, queued, lagged and logged events.

**Rules.** `RuleValues` and `RuleEval` define evaluation with errors as values and
budgets; `RuleLaws`, `RuleMonotone` and `RuleMatcher` prove its laws,
`RuleOperands` those of conditions that combine conditions only, `RuleMethods` those
of lists and maps; `RuleEvaluator` is the code with its counters and stacks. `RuleParser` is the expression grammar,
`RuleRendering` and `RuleRoundTrip` printing and reading back, `RuleParsing` the
parser with its position and depth.

**Dates and signing keys.** `Dates` and `Rfc3339` cover civil dates, `SigningKeys`
how long a retired key is kept.

## What the proofs brought to light

The code is modelled as it is. These are its surprises, each with a lemma.

- Keys are not prefix-free, though a comment says so
  (`crates/waldflam-engine/src/index_key.rs:315-316`): the key of `"a"` is a prefix
  of the key of `"a\0"`. `KeyPrefixes.PrefixExactly` tells all such pairs. What
  holds, and suffices for composite keys, is that the order survives any suffix that
  is empty or starts below 0xFF (`KeyOrdering.SuffixOrder`).
- A map entry called `__val__` takes the place of the map's own key, so a planned
  query misses the document; exactly these maps are affected
  (`PlannerLimits.OwnValueFound`).
- An array clause marked exact can accept a document that its filter refuses: through
  a document field called `__name__`, or through an array at another spelling of the
  dotted path. `PlannerLimits.NameClauseExact` and `ArraySpellings.ArrayClauseExact`
  say exactly when.
- Ordering twice by one path, the keyset predicate of a cursor can accept documents
  the cursor excludes, because a later condition on a column overwrites an earlier
  one. It never loses one, so only a pushed window can answer otherwise
  (`PushedWindows.RepeatedOrderLosesResult`). `CursorExactness.KeysetExactly` says
  which documents it gains, `CursorExactness.RepeatsExactly` for which orders and
  cursors it gains any.
- Ordering by one path first up and then down, a pushed window is sorted down
  (`PushedWindows.TwoWayOrderMisleads`); `Fetching.SortDocumentExactly` says when the
  store's sort is the query's.
- The version bump after a write (`crates/waldflam-engine/src/commit.rs:272-274`)
  also follows a Verify, so a later version check in the same batch sees the time of
  the batch (`CommitTheorems.VerifyBumpsVersion`). Nothing else parts the fields, outcomes and
  errors of a batch from those of its writes committed one by one
  (`BatchEquivalence.BatchIsSequenceExactly`).
- Deleting and setting a stored document in one batch keeps its create time, which
  comes from `$setOnInsert`; exactly these differ from the writes committed one by one
  (`BatchEquivalence.CreationAgreesExactly`).
- Lists and aggregations inside a transaction record nothing
  (`crates/waldflam-server/src/service.rs:278`, `:580`), and a query nothing of a
  document it does not find, so the transaction can commit over their changes
  (`TransactionAnswers.UnrecordedAnswerGoesStale`).
- Only the first answer about a document is recorded. A later, different one is not
  checked: the commit can be accepted although the document answered is gone
  (`TransactionAnswers.RepeatedAnswerGoesStale`). `TransactionAnswers.AnswersStandExactly`
  says which recorded answers stand when a commit is accepted.
- The Listen pre-filter never lets through documents of a collection id with a slash
  in it, although the query reads them; `Coverage.CoverExact` says exactly when it
  is right.
- Defining an undefined variable can turn an allowing condition false when a logical
  operand is neither boolean nor error (`RuleMonotone.MixedVerdictFalls`); otherwise
  it cannot (`RuleMonotone.VerdictStands`), and conditions that combine conditions
  only are safe by their text (`RuleOperands.ClearVerdictStands`).
- A signing key outlives its tokens on the purging instance's clock while delays and
  skew total at most 240 s; for every clock within the skew 239 s suffice with the
  skew counted four times, the last second being lost to whole-second times
  (`SigningKeys.VerifiersFindKeys`).

## Model

| member | source | states |
|---|---|---|
| `Numbers.CompareIntDoubleExact` | crates/waldflam-engine/src/order.rs:133-151 | the range check, truncation and fraction test compare an int64 with a double exactly as their rational values compare, infinities and NaN included |
| `Numbers.CompareNumbersExact` | crates/waldflam-engine/src/order.rs:78-83 | any mix of int64 and double compares by exact value: NaN first, then -inf, the reals, +inf, with -0 equal to 0 |
| `NumberParts.FromNumberCanonical` | crates/waldflam-engine/src/encoding.rs:24-94 | every number has a canonical sign, exponent and fraction, which is what makes the eleven-byte buffer and the decoder's shifts safe |
| `NumberParts.I64RoundTrip` | crates/waldflam-engine/src/encoding.rs:117-138 | `as_i64` undoes `from_i64` for every int64 |
| `NumberParts.F64RoundTrip` | crates/waldflam-engine/src/encoding.rs:96-115 | `as_f64` undoes `from_f64` for every double up to a NaN's payload and a zero's sign, subnormals included |
| `NumberEncoding.SizeExact` | crates/waldflam-engine/src/encoding.rs:47-94 | the decomposition keeps the exact value of every int64 and every double |
| `NumberEncoding.NumberOrder` | crates/waldflam-engine/src/encoding.rs:141-213 | for any two numbers the byte order of the codes is the exact numeric order, a difference shows at a byte both codes have, and equal numbers share one code |
| `NumberEncoding.EncodeLength` | crates/waldflam-engine/src/encoding.rs:159-162 | no code is longer than the eleven bytes of the buffer |
| `NumberCoder.StreamBytes` | crates/waldflam-engine/src/encoding.rs:203-212 | the shifting loop appends exactly the fraction's seven-bit groups, flagged and inverted, after what is already written |
| `NumberCoder.WriteHead` | crates/waldflam-engine/src/encoding.rs:152-201 | the marker, exponent and inverter bit tricks write the head of the code and leave the fraction that is still to stream |
| `NumberCoder.EncodeBytes` | crates/waldflam-engine/src/encoding.rs:141-213 | the buffer-filling encoder, with its masks, shifts and inverters, returns the arithmetic code and never more than eleven bytes |
| `NumberDecoding.DecodeBytes` | crates/waldflam-engine/src/encoding.rs:228-337 | the decoding loop returns what the recursive reading of head and groups gives, for every input, errors included |
| `NumberDecoding.RoundTrip` | crates/waldflam-engine/src/encoding.rs:228-354 | decoding inverts encoding for every canonical number under any trailing bytes, and consumes the code's bytes only |
| `NumberDecoding.I64Survives` | crates/waldflam-engine/src/encoding.rs:441-458 | every int64 survives encoding and decoding under any trailing bytes |
| `NumberDecoding.F64Survives` | crates/waldflam-engine/src/encoding.rs:441-458 | every double survives, up to NaN payload and zero sign |
| `NumberDecoding.PrefixFree` | crates/waldflam-engine/src/encoding.rs:460-473 | no number's code is a proper prefix of another's |
| `IndexKey.PayloadOrder` | crates/waldflam-engine/src/index_key.rs:63-140 | by induction over nested arrays, maps, vectors and references: after one type's tag the written bytes are ordered as the values, followed by anything that starts below 0xFF |
| `IndexKey.KeyOrder` | crates/waldflam-engine/src/index_key.rs:46-140 | a smaller value's key stays below a larger one's under any such suffixes, and equal values have one key |
| `IndexKey.EscapedOrder` | crates/waldflam-engine/src/index_key.rs:145-153 | the escaped form of byte strings keeps their order although one can be a prefix of another |
| `KeyOrdering.KeyCompare` | crates/waldflam-engine/src/index_key.rs:46-50 | for all storable values the byte order of keys equals `compare_values`, all three outcomes |
| `KeyOrdering.SuffixOrder` | crates/waldflam-engine/src/index_key.rs:38-43 | the order survives any suffix that is empty or starts below 0xFF |
| `KeyPrefixes.PrefixExactly` | crates/waldflam-engine/src/index_key.rs:315-317 | one key is a proper prefix of another if and only if both values are text or both bytes, and the longer content goes on with a zero byte after the shorter, or both are vectors alike up to their last elements, of which this holds |
| `KeyPrefixes.EscapedPrefix` | crates/waldflam-engine/src/index_key.rs:145-153 | where it comes from: an escaped form is a prefix of another if and only if the contents are equal or the longer one goes on with a zero byte |
| `KeyPrefixes.NotPrefixFree` | crates/waldflam-engine/src/index_key.rs:315-317 | so keys are not prefix-free as the comment says: any text and the same text followed by a zero byte |
| `KeyOrdering.SelfDelimiting` | crates/waldflam-engine/src/index_key.rs:315-317 | what does hold of concatenated keys: with such suffixes, equal bytes come from equal keys and equal suffixes |
| `KeyOrdering.CompositeOrder` | crates/waldflam-engine/src/index_key.rs:317-337 | concatenated keys of equally many values compare component-wise |
| `KeyOrdering.ScanBounds` | crates/waldflam-engine/src/index_key.rs:339-346 | the absent tag and the top tag bracket every value's key, whatever follows |
| `KeyOrdering.Transitive` | crates/waldflam-engine/src/order.rs:73-120 | `compare_values` is transitive, and strict where either step is |
| `KeyOrdering.Congruent` | crates/waldflam-engine/src/order.rs:73-120 | values that compare equal compare alike with everything else: the order is a total preorder |
| `KeyOrdering.HexCompare` | crates/waldflam-engine/src/index_key.rs:54-61 | hexadecimal strings of keys compare as the keys |
| `KeyOrdering.IndexStringCompare` | crates/waldflam-engine/src/index_key.rs:52-61 | stored index strings compare as the values |
| `KeyWriter.KeyWriter.WriteEscaped` | crates/waldflam-engine/src/index_key.rs:145-153 | the loop appends the escaped bytes and the terminator, and nothing else changes |
| `KeyWriter.KeyWriter.WriteReference` | crates/waldflam-engine/src/index_key.rs:93-102 | segment by segment the loop appends the reference's code |
| `KeyWriter.KeyWriter.WriteFields` | crates/waldflam-engine/src/index_key.rs:125-135 | entries are appended in key order whatever order the map yields |
| `KeyWriter.KeyWriter.WriteValue` | crates/waldflam-engine/src/index_key.rs:63-140 | the recursive writer appends exactly the value's code to the buffer |
| `KeyWriter.EncodeValue` | crates/waldflam-engine/src/index_key.rs:46-50 | the writer's result is the key the order theorems are about |
| `KeyWriter.ToIndexString` | crates/waldflam-engine/src/index_key.rs:54-61 | the digit-pushing loop gives the hexadecimal string |
| `Comparing.ReferenceOrder` | crates/waldflam-engine/src/order.rs:154-167 | the segment loop computes the segment-wise order |
| `Comparing.SliceOrder` | crates/waldflam-engine/src/order.rs:169-178 | the element loop computes the array order |
| `Comparing.MapOrder` | crates/waldflam-engine/src/order.rs:180-196 | the loop over locally sorted keys computes the map order: key, then value, then size |
| `Comparing.ValueOrder` | crates/waldflam-engine/src/order.rs:73-120 | the whole comparison, early exits included, is the value order |
| `Fields.GetSet` | crates/waldflam-engine/src/fields.rs:28-43 | reading at or below a path just set reads the value set, through any replaced non-map intermediates |
| `Fields.GetSetElsewhere` | crates/waldflam-engine/src/fields.rs:28-43 | setting a path leaves every incomparable path as it was |
| `Fields.GetDelete` | crates/waldflam-engine/src/fields.rs:45-56 | after deleting a path nothing is found there or below |
| `Fields.GetDeleteElsewhere` | crates/waldflam-engine/src/fields.rs:45-56 | deleting a path leaves every incomparable path as it was |
| `Fields.SetsCommute` | crates/waldflam-engine/src/fields.rs:28-43 | sets at incomparable paths commute |
| `Fields.DeleteSet` | crates/waldflam-engine/src/fields.rs:45-56 | deleting a path that was present, after overwriting it, leaves what deleting it at once leaves |
| `Fields.FieldTree.Set` | crates/waldflam-engine/src/fields.rs:28-43 | the cursor walk that replaces intermediates ends in the specified nested map |
| `Fields.FieldTree.Delete` | crates/waldflam-engine/src/fields.rs:45-56 | the walk stops where an intermediate is missing, and otherwise removes the one entry |
| `Mirror.NodeFinds` | crates/waldflam-engine/src/store.rs:586-606 | a value's index node holds a nested path's key exactly when the value has that path |
| `Mirror.MirrorFinds` | crates/waldflam-engine/src/store.rs:560-585 | the `keys` column holds a path's key exactly when `get_field` finds the path, and then the key of what it finds |
| `Mirror.ElementsFind` | crates/waldflam-engine/src/store.rs:586-606 | the `elements` column lists a path and key exactly when some array at that path holds a value with that key |
| `Indexer.Indexer.KeyNode` | crates/waldflam-engine/src/store.rs:586-606 | the recursive builder, in whatever order a map is walked, returns the node and pushes exactly the array entries below it |
| `Indexer.IndexDocument` | crates/waldflam-engine/src/store.rs:560-585 | the columns built in place are the specified mirror of the document |
| `PlanExactness.ColumnValue` | crates/waldflam-engine/src/plan.rs:267-274 | a path's column holds the index string of the value the filter would read, and is missing exactly when that value is |
| `PlanExactness.RangeExact` | crates/waldflam-engine/src/plan.rs:241-264 | an inequality's type-tag bounds hold exactly for values of the operand's type rank that compare as asked, never NaN against a number |
| `PlanExactness.ContainsExact` | crates/waldflam-engine/src/plan.rs:199-203 | an elemMatch on a key means: some element of the array equals the operand |
| `PlanExactness.ContainsAnyExact` | crates/waldflam-engine/src/plan.rs:204-206 | the same for `array-contains-any`, null and NaN operands left out |
| `PlanExactness.ClauseFaithful` | crates/waldflam-engine/src/plan.rs:179-235 | each translated filter accepts every document its filter accepts, and only those where it is marked exact |
| `PlanExactness.PlanFaithful` | crates/waldflam-engine/src/plan.rs:57-81 | the whole plan accepts whatever filters and order-by existence accept, and exactly that where `Plan::exact` is set |
| `CursorExactness.KeysetExactly` | crates/waldflam-engine/src/plan.rs:131-171 | for any orders, start or end, inclusive or not, and every non-empty cursor prefix the OR of equality-prefixed branches loses no document the lexicographic, direction-aware comparison keeps, and takes in another if and only if some branch accepts it with a pin overwritten by a later condition on the same column |
| `CursorExactness.CursorExact` | crates/waldflam-engine/src/plan.rs:131-171 | so predicate and comparison agree on every document that has the ordered fields where orders and cursor pass a test that speaks of no document; distinct paths always do |
| `CursorExactness.RepeatsExactly` | crates/waldflam-engine/src/plan.rs:131-171 | the test is exact over free assignments of values to paths: it passes if and only if the predicate is right for all of them, whether or not one document can hold such values |
| `CursorExactness.OnwardIsHarmless` | crates/waldflam-engine/src/plan.rs:131-171 | and it passes whenever each repeated path keeps its direction and its later cursor value does not go back behind the earlier one |
| `SortKeys.NormalizedOrdersShape` | crates/waldflam-engine/src/query.rs:445-483 | normalized orders keep the given ones in front, end in `__name__`, cover every inequality and, if the given paths are distinct, stay distinct |
| `SortKeys.DocsTransitive` | crates/waldflam-engine/src/query.rs:489-508 | strict document comparison under any orders is transitive |
| `SortKeys.CompareDocsByKey` | crates/waldflam-engine/src/query.rs:489-508 | comparing documents by values is comparing their stored sort columns |
| `Fetching.OrderedUnique` | crates/waldflam-engine/src/query.rs:123-124 | two ordered listings of the same documents under orders ending in the name are one sequence, so the unstable parts of a sort cannot show |
| `PlannedQueries.FetchFaithful` | crates/waldflam-engine/src/query.rs:55-120 | for any orders what the store is asked for loses no qualifying document, and where a window is pushed down whose cursors pass the test it admits only those; documents are those without an entry `__val__` nested in them, a dot in a name or a field `__name__` |
| `PlannedQueries.PlannedEqualsScanned` | crates/waldflam-engine/src/query.rs:55-152 | for every collection of such documents and every allowed answer of the store, the planned run returns the documents of the scanning run in the same order: for any query where no window is pushed down, and with sort, skip and limit pushed down where its orders and cursors pass the test and no path is first and last ordered differently |
| `PlannedQueries.DistinctIsSafe` | crates/waldflam-engine/src/query.rs:445-483 | a query whose order-by paths are distinct always meets the conditions on windows, inequality fields and the name added |
| `PlannerLimits.OwnKeyKept` | crates/waldflam-engine/src/store.rs:586-606 | a map's own key stays in its node if and only if the map has no entry called `__val__` |
| `PlannerLimits.OwnValueFound` | crates/waldflam-engine/src/store.rs:586-606 | a plan finds a document by the value of its own field if and only if that value is no map with an entry called `__val__` |
| `PlannerLimits.NameClauseExact` | crates/waldflam-engine/src/plan.rs:283-291 | an array clause on `__name__` agrees with its filter if and only if the document has no such field holding the operand |
| `PlannerLimits.NameFieldIsTaken` | crates/waldflam-engine/src/plan.rs:267-274 | a document field called `__name__` passes an exact array clause it should not |
| `ArraySpellings.ArrayClauseExact` | crates/waldflam-engine/src/plan.rs:174-177 | for any document and plain path the `array-contains` clause agrees with its filter if and only if the filter accepts or no array at another spelling of the same dotted path holds the operand |
| `ArraySpellings.AnyClauseExact` | crates/waldflam-engine/src/plan.rs:204-206 | the same for `array-contains-any` and its operands other than null and NaN |
| `PlannerLimits.DottedFieldIsTaken` | crates/waldflam-engine/src/plan.rs:174-177 | its simplest case: an array under a field name with a dot in it passes an exact clause that the filter refuses |
| `PushedWindows.RepeatedOrderIsLost` | crates/waldflam-engine/src/plan.rs:131-171 | ordering twice by one path, the keyset predicate can keep documents before the cursor |
| `PushedWindows.RepeatedOrderLosesResult` | crates/waldflam-engine/src/query.rs:205-227 | and with a limit pushed down such a document takes the place of the one the query asks for: a run where the planned query finds nothing and the scanning one finds it |
| `PushedWindows.TwoWayOrderMisleads` | crates/waldflam-engine/src/store.rs:394-399 | ordering up and then down by one path, with a limit of one: a run where the planned query answers with the larger document and the scanning one with the smaller |
| `Fetching.SortDocumentExactly` | crates/waldflam-engine/src/store.rs:394-399 | the sort sent to the store, in which a repeated column keeps its place and takes the new direction, has the deciding columns in their own directions if and only if every column is first and last ordered the same way |
| `QueryEngine.FlattenWhere` | crates/waldflam-engine/src/query.rs:315-332 | nested AND filters are pushed in order, any other composite is an error |
| `QueryEngine.NormalizeOrders` | crates/waldflam-engine/src/query.rs:445-483 | the in-place normalization, skipping paths already present, is the specified one |
| `QueryEngine.BuildPlan` | crates/waldflam-engine/src/plan.rs:57-81 | the clause list and the exactness flag built filter by filter are the specified plan |
| `QueryEngine.BuildCursorBound` | crates/waldflam-engine/src/plan.rs:131-171 | the branch list built in place is the keyset predicate |
| `QueryEngine.BuildCursorClauses` | crates/waldflam-engine/src/query.rs:171-203 | start and end cursors are translated with their own direction and inclusiveness, and too long ones refused |
| `QueryEngine.Request` | crates/waldflam-engine/src/query.rs:205-227 | a window is requested exactly when plan, orders and cursors allow it |
| `QueryEngine.Store.Fetch` | crates/waldflam-engine/src/store.rs:387-411 | rows of the scope that satisfy the predicate, sorted and cut as the window says |
| `QueryEngine.Evaluate` | crates/waldflam-engine/src/query.rs:55-152 | the run with its retain, sort, drain and truncate steps gives the query's answer, scanning for any documents and query, planned under the conditions of the theorem before |
| `Transforms.MergeReads` | crates/waldflam-engine/src/commit.rs:235-251 | after a masked update each mask path reads as in the incoming document, present or absent, for any mask |
| `Transforms.MergeLeaves` | crates/waldflam-engine/src/commit.rs:235-251 | every path incomparable to all mask paths reads as before |
| `Transforms.MaskReads` | crates/waldflam-server/src/service.rs:173-184 | a projection shows each mask path as the document has it |
| `Transforms.MaskHides` | crates/waldflam-server/src/service.rs:173-184 | and nothing at any path incomparable to the mask |
| `Transforms.IncrementClamps` | crates/waldflam-engine/src/commit.rs:374-393 | integer increments saturate at the ends of int64 and are exact between |
| `Transforms.MaxMinBounds` | crates/waldflam-engine/src/commit.rs:395-417 | the result of max or min is one of the two, not beaten by the other, NaN handled as coded |
| `Transforms.MaxMinIdempotent` | crates/waldflam-engine/src/commit.rs:395-417 | applying max or min twice is applying it once |
| `Transforms.UnionHolds` | crates/waldflam-engine/src/commit.rs:337-345 | an append keeps the old elements first, adds operands only, and leaves every operand present |
| `Transforms.UnionDistinct` | crates/waldflam-engine/src/commit.rs:337-345 | no appended element equals another, `1` against `1.0` included |
| `Transforms.UnionIdempotent` | crates/waldflam-engine/src/commit.rs:337-345 | appending the same elements again changes nothing |
| `Transforms.WithoutIdempotent` | crates/waldflam-engine/src/commit.rs:346-352 | neither does removing them again |
| `BatchEquivalence.BatchIsSequenceExactly` | crates/waldflam-engine/src/commit.rs:115-175 | every prefix of a batch gives the fields, outcomes and error of its writes committed one by one if and only if no version check on a stored document that was verified but not yet written tells the batch's time from the stored version; then the whole batch does |
| `BatchEquivalence.BatchIsSequence` | crates/waldflam-engine/src/commit.rs:115-175 | so does every batch without a Verify |
| `BatchEquivalence.BatchFailsTogether` | crates/waldflam-engine/src/commit.rs:115-141 | a batch with a failing write fails, and applied one by one it also stops there |
| `BatchEquivalence.CreationAgreesExactly` | crates/waldflam-engine/src/store.rs:308-321 | after a batch a document has the create time it would have one by one unless it was stored, created at another time than the batch's, deleted and written again in the batch; and only then not |
| `CommitTheorems.ChangesExact` | crates/waldflam-engine/src/commit.rs:143-175 | the change list names each path with an update, delete or transform exactly once, with its loaded before-image and final after-image, and nothing else changes |
| `CommitTheorems.VerifyBumpsVersion` | crates/waldflam-engine/src/commit.rs:272-274 | the shortest such batch, for any stored document: a Verify, then a delete that asks for the stored version, fails as a batch and passes one by one |
| `CommitTheorems.RecreatedKeepsCreation` | crates/waldflam-engine/src/store.rs:308-321 | the shortest such batch, for any stored document: delete and set keep the create time that the two writes one by one renew |
| `Committing.RunMask` | crates/waldflam-engine/src/commit.rs:235-251 | the loop over mask paths on the nested map is the merge |
| `Committing.RunTransforms` | crates/waldflam-engine/src/commit.rs:266-359 | transforms run in order on the tree and report each result |
| `Committing.ReadMasked` | crates/waldflam-server/src/service.rs:173-184 | the loop filling a fresh map is the projection |
| `Committing.RunWrite` | crates/waldflam-engine/src/commit.rs:218-306 | one write, its precondition checked first, gives the specified state, outcome or error |
| `Committing.Database.Load` | crates/waldflam-engine/src/commit.rs:122-133 | every target is read once |
| `Committing.Database.PersistAll` | crates/waldflam-engine/src/commit.rs:143-166 | each dirty document is stored once, and reported with the row it left |
| `Committing.Database.ApplyCommit` | crates/waldflam-engine/src/commit.rs:115-175 | the whole commit on the stored rows; on any error the rows are untouched |
| `Transactions.TransactionManager.Begin` | crates/waldflam-engine/src/txn.rs:43-62 | a new token with an empty read set |
| `Transactions.TransactionManager.RecordRead` | crates/waldflam-engine/src/txn.rs:64-71 | the first version seen of a path is kept |
| `Transactions.TransactionManager.Take` | crates/waldflam-engine/src/txn.rs:73-85 | a live token of this database is handed out and removed, any other refused |
| `Transactions.ValidateReadSet` | crates/waldflam-engine/src/txn.rs:94-110 | accepted exactly when every recorded document still has its recorded version, absent as version zero |
| `Transactions.ServeCommit` | crates/waldflam-server/src/service.rs:429-474 | lock, take, validate and apply on the real objects do what the one atomic step of the runs says |
| `Transactions.TokensDiffer` | crates/waldflam-engine/src/txn.rs:43-62 | two tokens of different counters are different whatever their random parts |
| `TransactionRuns.ReadsAreCurrent` | crates/waldflam-server/src/service.rs:441-462 | in every state of the invariant, a commit that succeeds finds every recorded document exactly as first observed |
| `TransactionRuns.NoStaleCommit` | crates/waldflam-server/src/service.rs:441-462 | the same over every interleaving of reads, plain writes, rollbacks and commits from any start, given distinct commit times |
| `TransactionRuns.NoLostUpdate` | crates/waldflam-server/src/service.rs:429-474 | where each transaction computes its writes, of any kind and number, from the documents it recorded, the rows after any interleaving are those of the landing commits run one after another, each on the rows it then finds |
| `TransactionAnswers.AnswersStandExactly` | crates/waldflam-server/src/service.rs:348-415 | for every answer that is recorded, first or repeated, over any steps before, during and after its request: once the transaction's commit is accepted, the document is as answered if and only if the transaction had no record of it when it was answered, or one of the same version |
| `TransactionAnswers.ChangeUnnoticed` | crates/waldflam-engine/src/txn.rs:64-71 | a document answered under a transaction has changed since: unless the token, mode or clock objects, the commit is accepted if and only if every other record still holds and this document was never recorded, or is again the row recorded first, which is not the answered one |
| `TransactionAnswers.RepeatedAnswerGoesStale` | crates/waldflam-engine/src/txn.rs:64-71 | such a run: a document is answered absent, created, answered again and deleted, and the commit is accepted with the document in its read set |
| `TransactionAnswers.UnrecordedAnswerGoesStale` | crates/waldflam-server/src/service.rs:278-312 | every kind of answer that is not recorded, of a list, of an aggregation, or of a query that does not find the document, can be overturned by a plain commit without hindering the transaction's |
| `Listening.ListenSession.NextReadTime` | crates/waldflam-server/src/listen.rs:114-117 | read times strictly increase |
| `Listening.ListenSession.SendSnapshotMarker` | crates/waldflam-server/src/listen.rs:141-150 | a marker goes out only where folding the messages so far gives every target's members, at a read time above every earlier one |
| `Listening.ListenSession.AddTarget` | crates/waldflam-server/src/listen.rs:172-217 | a new target starts with what the store shows, a reused id or a missing kind ends the stream |
| `Listening.ListenSession.SendInitialState` | crates/waldflam-server/src/listen.rs:259-340 | documents found, documents missing, CURRENT and a marker, ending in agreement with the members |
| `Listening.ListenSession.HandleRequest` | crates/waldflam-server/src/listen.rs:152-170 | a stream serves one database; a removed target sends nothing more |
| `Listening.ListenSession.HandleEvent` | crates/waldflam-server/src/listen.rs:357-466 | every covered query target moves to its new results, document targets to the event's; a marker follows whatever was sent |
| `Listening.ListenSession.ResyncAll` | crates/waldflam-server/src/listen.rs:468-478 | after a lag every target is reset and read again |
| `Watching.DiffSuffices` | crates/waldflam-server/src/listen.rs:425-458 | the entered documents and departed paths turn the old members into the new results |
| `Watching.SettledMeans` | crates/waldflam-server/src/listen.rs:462-466 | no finished step leaves a document message without a later marker |
| `Coverage.CoverExact` | crates/waldflam-server/src/listen.rs:482-497 | the pre-filter lets a path through if and only if the query reads it and reads a group or a collection named by one segment |
| `Coverage.SlashedCollectionIsMissed` | crates/waldflam-server/src/listen.rs:482-497 | with a slash in it a document in scope is missed |
| `Coverage.UncoveredUnchanged` | crates/waldflam-server/src/listen.rs:482-497 | stores that agree on everything the pre-filter lets through give one answer |
| `Convergence.QueryViewSound` | crates/waldflam-server/src/listen.rs:404-422 | a query target's view is one the convergence theorem applies to |
| `Convergence.TargetsConverge` | crates/waldflam-engine/src/fanout.rs:28-67 | in every reachable state of any number of instances each query target shows its query's current results or an event that will refresh it is unpublished, logged, queued, lagged or at work; once drained, targets are current |
| `RuleEval.Eval` | crates/waldflam-rules/src/eval.rs:77-230 | every evaluation ends within 10,000 steps, makes at most 20 host calls, and restores the depth on each non-fatal return |
| `RuleLaws.LogicIsKleene` | crates/waldflam-rules/src/eval.rs:231-248 | the two logical operators are strong Kleene on true, false and everything else, the right side run only where the left does not decide |
| `RuleLaws.EvalSolid` | crates/waldflam-rules/src/eval.rs:85-230 | no value ever holds an error inside a list or map, if built-ins and host bury none |
| `RuleMethods.CollectionsSolid` | crates/waldflam-rules/src/stdlib.rs:163-250 | the methods of lists and maps need no such assumption: with all of them as coded no value ever does |
| `RuleMethods.DeduplicatedMeans` | crates/waldflam-rules/src/stdlib.rs:192-200 | `toSet` keeps no two items of which the first equals the second, and drops only items that equal a kept one, NaN included |
| `RuleMethods.HasOnlyMeans` | crates/waldflam-rules/src/stdlib.rs:171-251 | `after.diff(before).affectedKeys().hasOnly(names)` is true exactly when the two maps agree at every key outside the names |
| `RuleMonotone.EvalAgree` | crates/waldflam-rules/src/eval.rs:85-263 | two runs, the second with values where the first had errors, agree wherever the first has a value, even with differently spent budgets |
| `RuleMonotone.VerdictStands` | crates/waldflam-rules/src/eval.rs:231-248 | so a boolean verdict whose logical operands were booleans or errors stays |
| `RuleMonotone.MixedVerdictFalls` | crates/waldflam-rules/src/eval.rs:231-248 | without that condition it may fall: an integer or-ed with `x`, compared with that integer |
| `RuleOperands.EvalTidy` | crates/waldflam-rules/src/eval.rs:231-263 | a condition whose logical operands are all comparisons, membership and type tests, negations, booleans, calls of boolean functions or such operators themselves never mixes in another value, in any scope and budget |
| `RuleOperands.ClearVerdictStands` | crates/waldflam-rules/src/eval.rs:231-248 | so the verdict of such a condition, which can be told from its text, stays when undefined variables become defined |
| `RuleMatcher.DecisionIsGrant` | crates/waldflam-rules/src/matcher.rs:63-213 | a ruled request is allowed exactly when some chain of matching rules ends at its path with an applicable true condition, in any order, errors beside it or not |
| `RuleMatcher.ListedMeansEach` | crates/waldflam-rules/src/matcher.rs:15-20 | allowed with an unspecified document means allowed with every document id, for glob-free sentinel-free rules |
| `RuleOperands.ClearListedMeansEach` | crates/waldflam-rules/src/matcher.rs:15-20 | for rulesets whose conditions are all of that form, allowed with an unspecified document means allowed with every document id |
| `RuleEvaluator.Evaluator.Evaluate` | crates/waldflam-rules/src/eval.rs:77-230 | the evaluator with its counters updated in place gives the specified value and leaves the specified budgets |
| `RuleEvaluator.Evaluator.EvaluateCall` | crates/waldflam-rules/src/eval.rs:265-355 | receiver, arguments, then the user function or built-in, as specified |
| `RuleEvaluator.Evaluator.CallGlobal` | crates/waldflam-rules/src/eval.rs:357-386 | `get` and `exists` count against the 20 lookups before the host is asked |
| `RuleEvaluator.Evaluator.CallUser` | crates/waldflam-rules/src/eval.rs:320-351 | a user function sees its parameters, inherited captures and lets, and the call depth is given back |
| `RuleEvaluator.Matcher.MatchSegments` | crates/waldflam-rules/src/matcher.rs:168-213 | captures are pushed as segments match, single, recursive and literal |
| `RuleEvaluator.Matcher.WalkRules` | crates/waldflam-rules/src/matcher.rs:101-166 | captures and functions are truncated back after every branch, taken or not |
| `RuleEvaluator.Authorize` | crates/waldflam-rules/src/matcher.rs:63-99 | the walk with its granted and errored flags decides as specified, with a fresh evaluator per condition |
| `RuleParser.ParseExpr` | crates/waldflam-rules/src/parser.rs:315-323 | parsing terminates on every token list, consumes at least one token when it succeeds and never runs past the end |
| `RuleRoundTrip.ParseUndoesShow` | crates/waldflam-rules/src/parser.rs:325-515 | printing with parentheses only where precedence asks for them and parsing gives every sayable expression back: binaries to the left, conditionals to the right, suffixes tighter than prefixes, within the depth limit |
| `RuleRoundTrip.ExprShown` | crates/waldflam-rules/src/parser.rs:315-515 | the same at every required precedence and before any text that cannot continue the expression |
| `RuleRoundTrip.InnerShown` | crates/waldflam-rules/src/parser.rs:325-372 | up to the operators that may still take the expression as their left operand |
| `RuleRoundTrip.PrefixShown` | crates/waldflam-rules/src/parser.rs:374-500 | up to the suffixes that may still apply to it |
| `RuleParsing.Parser.Expression` | crates/waldflam-rules/src/parser.rs:315-323 | the moving position and the depth counter read what the grammar says, and the depth is restored |
| `RuleParsing.Parser.ExpressionInner` | crates/waldflam-rules/src/parser.rs:325-372 | the loop that rebuilds the left operand stops where the precedence says |
| `RuleParsing.Parser.First` | crates/waldflam-rules/src/parser.rs:374-458 | one primary: constants, keywords, names, calls, brackets, prefix operators |
| `RuleParsing.Parser.Arguments` | crates/waldflam-rules/src/parser.rs:502-514 | the argument loop, also used for list items, reads up to the closing token |
| `RuleParsing.Parser.Suffixes` | crates/waldflam-rules/src/parser.rs:460-500 | the suffix loop reads members, calls, indices and ranges as long as they come |
| `RuleParsing.ParseExpression` | crates/waldflam-rules/src/parser.rs:518-530 | a standalone source is an expression only if nothing is left over; a printed expression is read back |
| `Dates.CivilIsDate` | crates/waldflam-rules/src/stdlib.rs:340-351 | the computed year, month and day are a date of the calendar, and its day number is the input |
| `Dates.DateIsCivil` | crates/waldflam-rules/src/stdlib.rs:340-351 | every date of the calendar is computed from its own day number |
| `Dates.DateRoundTrip` | crates/waldflam-rules/src/stdlib.rs:327-351 | `civil_from_days` undoes `days_from_civil` for every valid date |
| `Dates.DayRoundTrip` | crates/waldflam-rules/src/stdlib.rs:327-351 | and the other way for every day of the years 1 to 9999 |
| `Dates.Epoch` | crates/waldflam-rules/src/stdlib.rs:340-351 | day zero is Thursday, 1 January 1970, which anchors all of these |
| `Dates.Successor` | crates/waldflam-rules/src/stdlib.rs:340-351 | the next day number is the next date of the calendar |
| `Dates.WeekTurns` | crates/waldflam-rules/src/stdlib.rs:286-309 | the day of the week advances by one, modulo seven |
| `Dates.DayOfYearCounts` | crates/waldflam-rules/src/stdlib.rs:286-309 | the day of the year starts at one and advances to the next New Year |
| `Rfc3339.FormatShaped` | crates/waldflam-server/src/functions.rs:304-331 | a timestamp of the years 0 to 9999 is printed in 27 characters: the separators of RFC 3339 section 5.6 in their places and digits everywhere else |
| `Rfc3339.FormatRoundTrip` | crates/waldflam-server/src/functions.rs:304-331 | and one of the years 1 to 9999 reads back to the microsecond |
| `SigningKeys.KeyStore.SigningKeyOrInsert` | crates/waldflam-engine/src/credentials.rs:482-502 | the active key, or the candidate inserted as such |
| `SigningKeys.KeyStore.RotateSigningKey` | crates/waldflam-engine/src/credentials.rs:519-545 | the old active key is kept under its own role with its deadline, the candidate becomes the one active key |
| `SigningKeys.KeyStore.PurgeRetiredSigningKeys` | crates/waldflam-engine/src/credentials.rs:566-573 | exactly the keys with a passed deadline are removed and counted |
| `SigningKeys.DeadlineCovers` | crates/waldflam-server/src/credentials.rs:68-86 | the arithmetic behind the grace: a deadline is past the expiry and leeway of any token a copy of the key could have signed |
| `SigningKeys.SigningKeyOutlivesTokens` | crates/waldflam-server/src/credentials.rs:281-395 | over every run of reads, cached copies, mints, rotations and purges on any number of instances, a token's key is stored, or was purged after the token's expiry and leeway, while delays and skew total at most 240 s; and one key is active |
| `SigningKeys.VerifiersFindKeys` | crates/waldflam-server/src/credentials.rs:281-395 | while any clock within the skew reads at most a token's expiry plus leeway, its key is stored, if delays and four times the skew total at most 239 s |

## Left out

Members whose contracts say less than one might look for:

- QueryEngine.Evaluate: planned runs assume field names without dots, nested names other than `__val__` and no field called `__name__`, and where a window is pushed down orders and cursors that pass the test of `CursorExactness.CursorExact` with no path first and last ordered differently. `PlannerLimits` and `ArraySpellings` say exactly what a clause does otherwise, `PushedWindows` shows runs that diverge.
- BatchEquivalence.BatchIsSequenceExactly: compares at one time `now` for the batch and each of its writes, and leaves create times to `BatchEquivalence.CreationAgreesExactly`.
- CommitTheorems.VerifyBumpsVersion: shows one failing shape for any stored document; the exact condition is `BatchEquivalence.BatchIsSequenceExactly`.
- CommitTheorems.RecreatedKeepsCreation: shows one failing shape for any stored document; the exact condition is `BatchEquivalence.CreationAgreesExactly`.
- PlannerLimits.DottedFieldIsTaken: shows one failing shape; the exact condition is `ArraySpellings.ArrayClauseExact`.
- PushedWindows.RepeatedOrderIsLost: shows one failing shape; the exact condition is `CursorExactness.KeysetExactly`, and for orders and cursors alone `CursorExactness.RepeatsExactly`.
- CursorExactness.OnwardIsHarmless: goes one way, as a condition to check pair by pair; what is also necessary is `CursorExactness.RepeatsExactly`.
- CursorExactness.RepeatsExactly: ranges over all assignments of values to paths; which of them one document can hold, with nested paths or the name among them, is not part of the test, and the test itself ranges over all values of one path.
- TransactionRuns.NoStaleCommit: covers one instance and pairwise distinct commit times; several instances are not isolated from one another by the code.
- TransactionRuns.NoLostUpdate: a transaction's writes are a function of what it first recorded; what repeated answers, lists, aggregations and misses of queries contributed is not covered.
- TransactionAnswers.AnswersStandExactly: is about recorded answers under a token handed out by then; answers that are not recorded are covered by `TransactionAnswers.ChangeUnnoticed`.
- Convergence.TargetsConverge: is about query targets; documents targets can end on an older event when publishing overtakes. The change stream is assumed to open and resume without gaps, and the reads that rebuild an event to succeed.
- Listening.ListenSession.AddTarget: target ids are unbounded integers, so the server's counter does not wrap at 32 bits.
- Listening.ListenSession.HandleEvent: the store's reads are parameters, honest about paths and distinct documents; a failing read ends the stream.
- RuleEval.Eval: built-in methods other than those of lists and maps, globals other than the four document lookups, floating-point arithmetic and the host are parameters; timestamps and durations do not overflow.
- RuleLaws.EvalSolid: assumes that built-ins and host answers bury no error in a list or map; `RuleMethods.CollectionsSolid` drops that for the methods of lists and maps.
- RuleMonotone.VerdictStands: speaks of a run that mixed no other values into its logic; `RuleOperands.ClearVerdictStands` asks for a form of the text instead.
- RuleMonotone.MixedVerdictFalls: shows one failing condition; `RuleMonotone.VerdictStands` and `RuleOperands.ClearVerdictStands` say what rules the family out.
- RuleMatcher.ListedMeansEach: assumes that the granting condition mixed no other values into its logic and that the second decision stays within its budgets; `RuleOperands.ClearListedMeansEach` replaces the first by a form of the text.
- RuleParser.ParseExpr: reads path literals as syntax errors.
- RuleRoundTrip.ParseUndoesShow: path literals, which are scanned from the raw source, are not part of this model, and neither are statements around expressions. The parentheses are not the fewest: the left operand of an operator after `is` has some to spare.
- RuleParsing.ParseExpression: starts from tokens, and a syntax error is reported without its text and position.
- Committing.Database.ApplyCommit: a commit is one atomic step; sessions, retries and the commit notice are not part of this model.
- Fields.FieldTree.Set: nested maps are values that are rebuilt on the way up, so sharing of a mutable map between two owners is not captured.
- SigningKeys.SigningKeyOutlivesTokens: measures expiry on the purging instance's clock; for every verifier's clock see `SigningKeys.VerifiersFindKeys`. Keys are ids and times; sealing, remote signers and the key material are not part of this model.
- Rfc3339.FormatRoundTrip: the reader of the printed text is this project's own, as the repository has none for this form; years outside 1 to 9999 are printed with a width or sign of their own, which is not part of this model.

Not modelled at all:

- MongoDB, change streams and sessions beyond a predicate over rows and an ordered log with a resume position.
- gRPC, REST, WebChannel, TLS, JSON and protobuf transcoding, configuration.
- Resource-name parsing: a write's target path, or its absence, is given.
- Aggregations, pipelines, partition queries and `read_time` selectors.
- Pipeline-expression values, which are not storable; nanoseconds are in [0, 1e9).
- Float addition and int-to-float conversion in increments: a parameter.
- RSA, JWT, AES-GCM, accounts, refresh tokens and identities.
- Regular expressions, string case mapping and lat/lng distance in the rules library.
- Triggers and their delivery.
