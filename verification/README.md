# The algorithms behind DROP's web panel

DROP's control panel is a web page built on jQuery 1.9.1 and jqGrid 4.5.4. This
project models the algorithms of that page and proves what they promise: Sizzle's
selector matcher with its memo cells, jQuery's callback lists, Deferred and `when`,
jqGrid's filter compiler, multi-key sort, grouping and column layout, and the
panel's own resource tree.

| file | what it models |
|---|---|
| `Document.dfy`, `Selector.dfy` | trees, paths, and what a selector means, read from right to left |
| `Shortcuts.dfy`, `Sizzle.dfy` | what `select` may leave out by starting at an id and fetching a seed; compiling a selector to nested closures and running them with memo cells shared by all candidates |
| `DocumentOrder.dfy` | the ancestor-list comparator and `uniqueSort` |
| `NthChild.dfy` | the `CHILD` filter with its resumable position search |
| `Callbacks.dfy`, `Deferred.dfy`, `When.dfy` | re-entrant callback lists, a Deferred as a state machine over three of them, and the counter of `when` |
| `Expression.dfy`, `QueryFilter.dfy` | the flat text that `tojLinq` writes, the grammar by which `eval` reads it, and when the two agree |
| `Strings.dfy`, `Sorting.dfy`, `MultiSort.dfy`, `SortOutcomes.dfy`, `SortedGroups.dfy` | string order and text sort keys, a stand-in for `Array.prototype.sort`, `_doSort`, which results it may have on given data, and what sorting by the group fields does for grouping |
| `Grouping.dfy`, `GroupingRender.dfy` | `groupingPrepare` row by row, and the one-pass renderer with footers |
| `ColumnWidths.dfy`, `HtmlCodec.dfy` | `setColWidth`; `htmlEncode` and `htmlDecode` |
| `Cache.dfy` | `createCache` and the token arrays it shares |
| `ResourceTree.dfy` | `TreeNode`, `Tree`, the lookups, and `NodeCoo` |
| `Wrappers.dfy`, `Sequences.dfy` | `Option`, and facts about sequences that several modules use |

Check it with `dafny verify dfyconfig.toml`.

## How to read it

Objects whose methods update fields are classes whose methods are proved against
functions of the old state; code made of expressions is functions and lemmas.
Main results, hardest first:

- **The memo cells are sound.** A cell holds `true`, or a number naming the candidate
  that wrote it. `Sizzle.MemoSound` says what each may mean; every closure keeps it,
  and the cached matcher keeps exactly the candidates that the reference semantics
  selects (`Sizzle.Engine.SuperMatch`). A number equal to the current candidate's also
  says that nothing further along matches, which holds only while the candidate has
  not succeeded: hence the last argument `!r` of `Sound`.
- **The filter compiler is right exactly when.** For filters without empty groups or
  incomplete rules, the text is always well formed. It has the filter's meaning if no
  negated rule displaces an operator queued by the parent and no OR group with both
  subgroups and rules is joined to anything by an AND; and if the rules are independent
  of each other, only then (`QueryFilter.FilterIsFaithfulIff`). The two conditions can be
  read off the filter.
- **A Deferred settles once**, on every run of registrations and settlements from inside
  and outside callbacks, and calls each function registered on the winning side exactly
  once, in order, with the first arguments (`Deferred.SettlementContract`); which
  notifications are delivered, to whom, is exact (`Deferred.NotificationsDelivered`,
  `Deferred.SettlementDropsQueue`). The callback lists underneath keep their promise on every
  run from a new list (`Callbacks.EveryFiringCallsEachOnce`, `Callbacks.FiresInOrder`).
- **Grouping is the nested decomposition into runs**, however the rows come
  (`Grouping.GroupingView.Prepare`), and the renderer's counter and backward search
  write what recursion over the rows would (`GroupingRender.GroupAndRender`).
- **The sort is lexicographic exactly when** the sort keys and the cells of a column agree
  on what is equal: over all data (`MultiSort.TwoColumnsIff`) and on given data
  (`SortOutcomes.AgreesIff`). On given data, each combination of group values has one group
  in every result exactly when no three rows clash: two that agree up to some field, and a
  third that agrees with them before it and has its sort key, but not its value, there
  (`SortedGroups.OneGroupEachIff`).

Where the code does less than one would expect:

- A text column trims (and may lower-case) its sort keys but `_equals` compares the cells as
  they are. Two columns then sort wrongly on some data (`MultiSort.BlankSortsWrong`), and the
  same group can appear twice (`SortedGroups.BlankGroupsTwice`). It sorts right where
  `MultiSort.TextAgreesIff` holds of the data; where it holds of every group field, no rows
  clash and each combination has one group.
- An OR group without a complete rule can unbalance the parentheses of the text. Whether it
  does is decided by a count over the filter (`QueryFilter.TextIsReadableIff`); it may
  also come out even (`QueryFilter.IncompleteRuleSpared`).
- A row without the field sets a `count` summary back to zero, so that it counts the rows
  after the last such one (`Grouping.SummaryMeaning`).
- An average with a divider is the sum of its field over the sum of the divider; where that
  sum is zero it is silently the sum over the number of rows (`GroupingRender.FooterShown`).
- A header shows its group's average still as a sum: averages are divided by the footer,
  and only where `groupSummary` is on (`GroupingRender.Renderer.Render`).
- A selector that names an id which occurs twice misses what only the second element leads to
  (`Shortcuts.DuplicateIdMisses`).
- `tblwidth` differs from the sum of the widths by the fractions of fixed columns, and if a
  negative scroll offset meets a fractional grid width (`ColumnWidths.Grid.SetColWidth`).
- `TreefindById` answers the root for an unknown id (`ResourceTree.FindsStored`).
- Notifications issued while another one is being delivered are lost if the Deferred settles
  before that delivery is over (`Deferred.SettlementDropsQueue`, `Deferred.QueuedNotificationLost`).

## Model

| member | source | states |
|---|---|---|
| Selector.CombinatorMeaning | WebUI/jquery-1.9.1.js:4551-4556 | the combinator table: `>` and `+` ask the nearest element in their direction, a space and `~` any element along it |
| Selector.ReachesMeaning | WebUI/jquery-1.9.1.js:4551-4556 | what the four combinators reach: a space an element above, `~` an element before among the siblings, `>` and `+` the one with no element between |
| Selector.KeptMeaning | WebUI/jquery-1.9.1.js:5347-5360 | the candidates kept are exactly those that some group selects, in their order and as often as they come |
| Sizzle.GuardMeaning | WebUI/jquery-1.9.1.js:5272-5289 | the foundational matcher of a selector holds exactly for elements reachable from the context over the leading or implied combinator |
| Sizzle.RelativeMeaning | WebUI/jquery-1.9.1.js:5291-5294 | wrapping the matchers of a prefix in a combinator gives exactly the meaning of the prefix followed by that combinator |
| Sizzle.Engine.MatcherFromTokens | WebUI/jquery-1.9.1.js:5269-5319 | the nested closures built from a token list hold of an element exactly if the reference semantics selects it, with combinator numbers all different |
| Sizzle.Engine.SearchUncached | WebUI/jquery-1.9.1.js:5111-5119 | the walk without memos finds whether some element further along satisfies the inner matcher |
| Sizzle.WalkHit | WebUI/jquery-1.9.1.js:5123-5127 | a current memo of `true`, or of this candidate's number, may end the walk at once: the verdict it gives is the verdict of the whole walk |
| Sizzle.Engine.VisitCached | WebUI/jquery-1.9.1.js:5122-5135 | one visit of the cached walk returns a verdict only if it is the right one, and leaves sound memos |
| Sizzle.Engine.SearchCached | WebUI/jquery-1.9.1.js:5121-5138 | the cached walk answers as the uncached one, whatever sound memos it finds, and leaves sound memos; numbers of this candidate are only vouched for while it has failed |
| Sizzle.Engine.Matches | WebUI/jquery-1.9.1.js:5091-5153 | every closure of a compiled selector, run on memo cells, decides what it means, and writes only cells of its own combinators at elements before its own |
| Sizzle.SoundNextRun | WebUI/jquery-1.9.1.js:5345-5383 | raising the candidate number makes the numbers of earlier candidates mere failures, so memos stay sound from one candidate to the next |
| Sizzle.Engine.SuperMatch | WebUI/jquery-1.9.1.js:5326-5418 | for every tree, list of groups and list of candidates, the loop with shared memo cells returns exactly the candidates that some group selects, in order |
| Sizzle.Engine.Compile | WebUI/jquery-1.9.1.js:5422-5446 | the compiled closure represents the groups, each in some order of alternatives |
| Selector.DropFilter | WebUI/jquery-1.9.1.js:5485-5505 | a simple filter of the last compound may be taken out of the token list and asked separately |
| Selector.SeedKeepsAll | WebUI/jquery-1.9.1.js:5485-5510 | matching the rest against the elements that the removed filter accepts selects what the whole selector selects among all elements |
| Shortcuts.SeedKeeps | WebUI/jquery-1.9.1.js:5485-5505 | matching what is left against what a finder fetched selects what the selector does, a fetched id standing for its first element |
| Shortcuts.RestMeaning | WebUI/jquery-1.9.1.js:5464-5476 | from an element as context the rest of a selector selects exactly what the selector does whose first token names that element alone |
| Shortcuts.SelectedBelow | WebUI/jquery-1.9.1.js:5335 | what is selected from a context lies below it, or with a leading sibling combinator below its parent, so no other candidates are needed |
| Shortcuts.PinnedUnique | WebUI/jquery-1.9.1.js:4099-4106 | where no two elements have an id that the selector names, taking the first element with it changes nothing |
| Shortcuts.KeptAnswers | WebUI/jquery-1.9.1.js:5335-5365 | matching all elements of a document gives those that the selector selects, each once and in document order |
| Shortcuts.DuplicateIdMisses | WebUI/jquery-1.9.1.js:5472 | a document with one id twice, and an element that the selector asks for and `select` misses |
| Sizzle.Engine.SelectFrom | WebUI/jquery-1.9.1.js:5480-5520 | from the document or an element, with or without a seed, the elements that the selector selects from there, in document order, including when no token is left |
| Sizzle.Engine.Select | WebUI/jquery-1.9.1.js:5458-5521 | for a single group in a document, on XML or not, exactly the elements that the selector selects when the id whose finder is used stands for its first element, each once and in document order; the elements that the full selector selects, if ids occur once |
| DocumentOrder.DocumentOrderIsPathOrder | WebUI/jquery-1.9.1.js:4299-4348 | one node comes before another in the pre-order list of the tree exactly if its path comes first; every node is listed once |
| DocumentOrder.BeforeTotal | WebUI/jquery-1.9.1.js:4299-4348 | any two different nodes are ordered |
| DocumentOrder.BeforeTransitive | WebUI/jquery-1.9.1.js:4299-4348 | document order is transitive |
| DocumentOrder.SiblingCheck | WebUI/jquery-1.9.1.js:4449-4468 | decides which of two siblings comes first, or which ancestor list ran out |
| DocumentOrder.Sorter.SortOrder | WebUI/jquery-1.9.1.js:4299-4343 | the ancestor-list comparison is negative, zero or positive exactly as the first node precedes, is, or follows the second |
| DocumentOrder.Sorter.UniqueSort | WebUI/jquery-1.9.1.js:4425-4447 | the result has the same members, strictly in document order; `hasDuplicate` ends up set exactly if something occurs twice or duplicates go unnoticed by the sort |
| DocumentOrder.InOrderUnique | WebUI/jquery-1.9.1.js:4425-4447 | a list strictly in document order is determined by its members, so every correct sort gives the same result |
| NthChild.CycleTestMeaning | WebUI/jquery-1.9.1.js:4762-4763 | the modulus test with JavaScript's remainder holds exactly if a·n+b is the index for some n ≥ 0 (section 6.6.5.2 of Selectors Level 3) |
| NthChild.PositionMeaning | WebUI/jquery-1.9.1.js:4747-4757 | a position is the number of siblings up to the element, or from it on, that are elements, or under of-type have its name |
| NthChild.Parent.SeekForward | WebUI/jquery-1.9.1.js:4720-4741 | resuming from the mark of an earlier query gives the position counted from the first child, restarts at most once, and not at all if the mark lies before the element |
| NthChild.Parent.SeekFromEnd | WebUI/jquery-1.9.1.js:4747-4759 | the plain loop gives the position counted from its end, and leaves true positions on every element it passed |
| NthChild.Parent.MatchesNth | WebUI/jquery-1.9.1.js:4680-4764 | an nth pseudo-class holds exactly if the element's position is in the cycle, whatever marks earlier queries of the run left |
| NthChild.Parent.NextRun | WebUI/jquery-1.9.1.js:4720-4745 | marks are never of a later run, so the next run finds all of them outdated |
| NthChild.Parent.MatchesSimple | WebUI/jquery-1.9.1.js:4699-4714 | first-, last- and only-child (or of-type) hold exactly if the element's position from the ends looked at is 1 |
| Callbacks.CallbackList.AddAll | WebUI/jquery-1.9.1.js:1058-1087 | the new list state of `add`: entries appended (once under `unique`), the firing extended, or a firing begun from memory |
| Callbacks.CallbackList.RemoveAll | WebUI/jquery-1.9.1.js:1089-1108 | removing by splices during a firing filters the entries already passed and those still waiting separately: nothing is skipped and nothing comes up again |
| Callbacks.FiresInOrder | WebUI/jquery-1.9.1.js:1029-1152 | on every run without lock and disable, the firings that `fire` asked for begin in the order in which they were asked for, a fire during a firing after it, and all others are still queued; under `once` the first and no other |
| Callbacks.DeafForever | WebUI/jquery-1.9.1.js:1119-1152 | a list that is disabled, locked after a fire, or has fired under `once` begins no further firing for a fire, whatever happens |
| Callbacks.LockOrDisableDeafens | WebUI/jquery-1.9.1.js:1119-1135 | locking and disabling have that effect, and leave the firings heard so far |
| Callbacks.LoopGood | WebUI/jquery-1.9.1.js:1036-1053 | going round the loop moves the next waiting entry to the called ones, or ends the firing with its account in order and begins the next of the queue with its own |
| Callbacks.AcceptedMeaning | WebUI/jquery-1.9.1.js:1062-1074 | what `add` is to accept: all functions given, or under `unique` the first occurrences of those not on the list |
| Callbacks.PushAllAccepts | WebUI/jquery-1.9.1.js:1058-1074 | the entries pushed are exactly those functions, in order, behind what was there |
| Callbacks.StepGood | WebUI/jquery-1.9.1.js:1058-1152 | whatever is done next at the top level or by a callback, the calls made and those waiting stay exactly the entries offered (on the list when the firing began, or accepted since) less those removed before their turn, in order |
| Callbacks.EveryFiringCallsEachOnce | WebUI/jquery-1.9.1.js:1004-1165 | on every run from a new list, with all that callbacks do and all that is queued: each firing calls entries in order, none twice and none removed before its turn; a firing that runs to its end has called all others that were offered; `firingLength` is the list's length during every call |
| Callbacks.FiringsComplete | WebUI/jquery-1.9.1.js:1029-1041 | every firing runs to its end unless the list is disabled, or locked without a memory, or a callback returns false under `stopOnFalse` |
| Callbacks.AddAfterFiring | WebUI/jquery-1.9.1.js:1036-1083 | what a list remembers: after every run, `add` on a list at rest fires at once exactly if the list has a memory and its last firing ran to the end, the functions it accepted with that firing's arguments; nothing after a callback stopped it |
| Callbacks.DisableEndsCalls | WebUI/jquery-1.9.1.js:1119-1123 | disabling a list, at rest or in the middle of a firing, ends all calls for good |
| Deferred.EveryRunKeepsInv | WebUI/jquery-1.9.1.js:1168-1253 | every run from a new Deferred keeps the invariant of its three lists, and can always go on |
| Deferred.SettlementContract | WebUI/jquery-1.9.1.js:1168-1253 | on every run, before settlement no done or fail callback has run; afterwards none of the loser ever does, the functions that the run registered on the winner's side run in the order of registration with the settling arguments, and at rest all of them have, once each, whenever they were registered; at rest the state is resolved exactly if the done side won, and rejected exactly if the fail side did |
| Deferred.FirstCallsAt | WebUI/jquery-1.9.1.js:1168-1253 | what those calls are: the k-th is of the k-th function registered, with the settling arguments |
| Deferred.FirstSettlementWins | WebUI/jquery-1.9.1.js:1225-1241 | the first resolve or reject takes effect with its own arguments, at once |
| Deferred.SettlesOnce | WebUI/jquery-1.9.1.js:1225-1233 | the state leaves pending at most once and the first settlement stands on every continuation |
| Deferred.NotificationsDelivered | WebUI/jquery-1.9.1.js:1225-1241 | on every run the notifications delivered are the first of those issued before the settlement (at rest and unsettled: all of them); each progress callback is called with the last one begun before it was registered and every later one, once each and in order; none issued after the settlement is delivered |
| Deferred.SettlementDropsQueue | WebUI/jquery-1.9.1.js:1128-1135 | exactly which notifications a settlement leaves undelivered: none, or if one is being delivered when it comes, those issued after that one |
| Deferred.QueuedNotificationLost | WebUI/jquery-1.9.1.js:1128-1135 | a run on which this happens: a progress callback that notifies again and then resolves |
| When.RemainingZero | WebUI/jquery-1.9.1.js:1260-1290 | the number of resolutions reaches the number of arguments exactly when every position is resolved |
| When.Master.constructor | WebUI/jquery-1.9.1.js:1256-1305 | after registration the master has exactly the outcome owed to the arguments: the reason of the first one already rejected, or all values if each is plain or resolved, or none while one is open; a single promise is its own master |
| When.Master.Update | WebUI/jquery-1.9.1.js:1266-1275 | a resolution fills its own position and resolves the master exactly if it is the last one missing |
| When.Master.Settle | WebUI/jquery-1.9.1.js:1264-1298 | in every order of later settlements the master stays at its first outcome, and always has the outcome owed: the first rejection, or all values in argument order |
| When.OwedOnce | WebUI/jquery-1.9.1.js:1256-1305 | a history of settlements owes at most one outcome |
| Expression.RenderRoundTrip | WebUI/src/grid.base.js:362-380 | reading a flat text with AND tighter than OR gives the value of the tree it was written from (section 11.11 of ECMA-262, edition 5.1) |
| Expression.Distinguish | WebUI/src/grid.base.js:539-552 | two expressions over the same comparisons differ on some record as soon as two comparisons meet under different operators |
| QueryFilter.QueryObject.Append | WebUI/src/grid.base.js:362-380 | the text grows by the queued operator, the pending parentheses, the negation and the comparison, and all pending state is spent |
| QueryFilter.QueryObject.ToJLinq | WebUI/src/grid.base.js:1680-1727 | walking a filter leaves the builder state that compiling it by recursion on its groups gives |
| QueryFilter.CompileText | WebUI/src/grid.base.js:1680-1727 | what is written for a filter is the text of one expression tree, behind the operator queued for it or the one its first negated rule put there |
| QueryFilter.QueryReads | WebUI/src/grid.base.js:1680-1727 | for every proper filter the text is well formed, parentheses balanced, and `eval` gives the value of that tree |
| QueryFilter.MeantIsMeaning | WebUI/src/grid.base.js:1680-1727 | the nested tree of a filter has its recursive AND/OR meaning |
| QueryFilter.TightValue | WebUI/src/grid.base.js:1680-1727 | under the two conditions the written tree and the nested tree have the same value on every record |
| QueryFilter.MeetsForceShape | WebUI/src/grid.base.js:1680-1727 | if all comparisons meet under the operators of the nesting, the two conditions hold at every level |
| QueryFilter.FilterIsFaithfulIff | WebUI/src/grid.base.js:1680-1727 | the compiled filter is right about every record if the two conditions hold, and for independent rules only if they do |
| Expression.EvalReadsIff | WebUI/src/grid.base.js:539-552 | any text at all can be read exactly if operands and operators alternate and its parentheses are balanced |
| QueryFilter.TextIsReadableIff | WebUI/src/grid.base.js:1680-1727 | for every filter, whatever is missing from it, `eval` can read the text exactly if a count of pending and open parentheses, taken over the filter alone, comes out even |
| QueryFilter.FilledIsReadable | WebUI/src/grid.base.js:1680-1727 | it does if no OR parenthesizes anything without a complete rule |
| QueryFilter.IncompleteRuleBreaksText | WebUI/src/grid.base.js:594-603 | an OR group of incomplete rules before another rule gives a text that `eval` rejects |
| QueryFilter.IncompleteRuleSpared | WebUI/src/grid.base.js:594-603 | the same group between two others of an OR does no harm |
| QueryFilter.Search | WebUI/src/grid.base.js:539-568 | for every filter, `execute` fails exactly if there are records and the parentheses do not come out even; else it keeps exactly the records on which evaluating the text is true, in order and each as often as it occurs: for filters without gaps those on which the tree of the text is true, and under the two conditions those the filter asks for |
| Strings.RankOrder | WebUI/src/grid.base.js:405-431 | the ranks that stand for text sort keys are ordered as the texts are |
| Strings.LessMeaning | WebUI/src/grid.base.js:419-428 | one text is less than another if it is a proper beginning of it, or has the smaller character where they first differ |
| Strings.TrimMeaning | WebUI/src/grid.base.js:475-478 | trimming takes away all blanks at the ends and nothing else |
| Strings.SortKeyMeaning | WebUI/src/grid.base.js:475-478 | two text cells have one sort key exactly if between their outer blanks they are the same text or, with case ignored, the same letters |
| MultiSort.Query.GetOrder | WebUI/src/grid.base.js:454-501 | a rearrangement in which keys never fall, or never rise in a descending column |
| MultiSort.Query.GetGroup | WebUI/src/grid.base.js:502-522 | the groups, one after another, are the records sorted by the key, cut where a cell differs from the first of its group: every cell of a group is the same as its first, and neighbouring groups begin with different ones |
| MultiSort.Query.DoSort | WebUI/src/grid.base.js:436-453 | one of the results that sorting, cutting and recursing may have |
| MultiSort.OutcomeIsLex | WebUI/src/grid.base.js:436-453 | every such result is a permutation in lexicographic order of the first m keys and directions, if among the data cells and keys agree in those columns (the last column of all needs no agreement) |
| MultiSort.LexIsByColumns | WebUI/src/grid.base.js:436-501 | lexicographic order in terms of keys and directions alone: in the first column where two records' keys differ, the smaller key comes first if the column ascends, the greater if it descends |
| MultiSort.TwoColumnsIff | WebUI/src/grid.base.js:436-522 | a first column sorts right under every second column and on all data exactly if its cells and keys agree on what is equal |
| MultiSort.SplitOutcome | WebUI/src/grid.base.js:482-485 | two records with equal keys in unequal cells, left in the wrong order by the second column |
| MultiSort.TextAgreesIff | WebUI/src/grid.base.js:475-478 | a text column agrees on given data exactly if no two of its cells differ only in what trimming and lower-casing remove |
| MultiSort.BlankSortsWrong | WebUI/src/grid.base.js:475-478 | two text columns and two records, with cells " a" and "a", that the sort leaves in the wrong order |
| MultiSort.Query.PerformSort | WebUI/src/grid.base.js:432-435 | a permutation; unchanged without sort keys; whenever cells and keys agree in the first m columns, two records whose keys differ in them stand as the first such column and its direction say |
| SortOutcomes.BlockOutcome | WebUI/src/grid.base.js:436-522 | records with equal cells before column k and equal keys, but changing cells, in it come out in any such order in some result, whatever other records are sorted with them |
| SortOutcomes.AgreesIff | WebUI/src/grid.base.js:436-522 | on given data a first column sorts right under every second column exactly if cells and keys agree among that data |
| SortOutcomes.TogetherIff | WebUI/src/grid.base.js:436-522 | on given data every result has records with equal cells in its first columns side by side exactly if no record has the key, but not the cell, of two others in the first column in which it differs from them |
| SortedGroups.OneEachIff | WebUI/src/grid.grouping.js:100-166 | grouping gives each combination of values that occurs exactly one group at every level if and only if its rows stand side by side |
| SortedGroups.SortedRowsGroupOnce | WebUI/src/grid.base.js:1740-1755 | rows in lexicographic order of the group fields have one group for each combination, if no three of them clash |
| SortedGroups.OneGroupEachIff | WebUI/src/grid.base.js:1740-1744 | on given data, with any further sort columns, every result of the sort has one group for each combination of values exactly if no three rows clash |
| SortedGroups.SplitGroups | WebUI/src/grid.base.js:1740-1744 | two values with one sort key: a result of the sort in which they alternate, and the first has two groups |
| SortedGroups.BlankGroupsTwice | WebUI/src/grid.base.js:475-478 | so it is for a text field with the values " a" and "a" |
| SortedGroups.SortAndGroup | WebUI/src/grid.base.js:1728-1774 | sorting by the group fields and any sort columns, keeping what the filter asks for, and grouping one page: the records are exactly those that the filter keeps, each as often as in the data, counted before paging; row i of the page is number (page-1)·rowNum + i of them, as many as there are up to rowNum; one group for each combination among them if no three rows of the data clash, and lexicographic order by the group fields if cells and keys of the data agree in them |
| SortedGroups.PagesCover | WebUI/src/grid.base.js:1759-1765 | the pages one after another are all the rows |
| Grouping.GroupingView.PrepareLevel | WebUI/src/grid.grouping.js:97-168 | at one level a row opens a group if it is the first, the level's value changed, or an outer level changed; else the last group of the level grows |
| Grouping.GroupingView.Prepare | WebUI/src/grid.grouping.js:80-172 | after every row the flat list is the pre-order list of the nested decomposition of all rows so far, with counters mirroring the last group of each level |
| Grouping.RunsNext | WebUI/src/grid.grouping.js:80-172 | how the decomposition changes with one more row: the last groups above the first changed level grow, the levels from there on get new groups |
| Grouping.GroupStarts | WebUI/src/grid.grouping.js:100-166 | a level-i group starts at a row exactly if some group field up to i differs from the row before |
| Grouping.GroupSpans | WebUI/src/grid.grouping.js:100-166 | every group's start and count cover a longest run of rows that agree on all fields up to its level, and its summary is the fold over exactly those rows |
| Grouping.ChildCounts | WebUI/src/grid.grouping.js:100-166 | the counts of the groups of any level within a group add up to that group's count |
| Grouping.SummaryMeaning | WebUI/src/grid.grouping.js:421-471 | the folded entries are the sum, the least and the greatest of the cells, a missing one standing for zero, and the divider's sum; the count is that of the rows since the last one without the field, which the code sets to zero |
| GroupingRender.Renderer.FindGroupIdx | WebUI/src/grid.grouping.js:270-288 | the backward search finds the last group at or before the leaf with the wanted level |
| GroupingRender.BackIsOpen | WebUI/src/grid.grouping.js:279-284 | that group is the one still open: only deeper groups stand between it and the leaf |
| GroupingRender.ClosedNext | WebUI/src/grid.grouping.js:307-362 | a leaf closes exactly the open groups down to the level of the next group, and each group is closed by one leaf only |
| GroupingRender.PassIsReference | WebUI/src/grid.grouping.js:291-363 | wherever a decomposition stands in the list, the pass writes over it what recursion over the rows writes, and then the footers of enclosing groups that end there |
| GroupingRender.Renderer.FooterRow | WebUI/src/grid.grouping.js:329-359 | a footer divides each average of its group once and shows every column's finished value |
| GroupingRender.FooterShown | WebUI/src/grid.grouping.js:341-351 | end to end, over the group's rows: the footer cell of a sum, least or greatest value or count entry shows just that, and of an average the field's sum divided by the divider's sum, or by the number of rows without a divider and where that sum is zero |
| GroupingRender.FooterBlank | WebUI/src/grid.grouping.js:337-357 | a footer has one cell for each column, empty where no entry is for it |
| GroupingRender.Renderer.Render | WebUI/src/grid.grouping.js:254-368 | the counter and backward search write the output of the pass, and every group with a footer ends up finished exactly once, the others untouched |
| GroupingRender.RenderedReads | WebUI/src/grid.grouping.js:254-368 | with footers at all levels the table is well bracketed: each row once and in order, each header closed by the footer of its own group after exactly its rows |
| GroupingRender.HeadersAreGroups | WebUI/src/grid.grouping.js:291-305 | the headers of the table are those of all groups of the decomposition, in order |
| GroupingRender.FootersAsAsked | WebUI/src/grid.grouping.js:329-359 | the table is the one with footers at all levels without those of the levels where `groupSummary` is off |
| GroupingRender.GroupAndRender | WebUI/src/grid.grouping.js:80-368 | feeding all rows and rendering gives the recursive reference table |
| ColumnWidths.SharesSum | WebUI/src/grid.base.js:2286-2294 | rounding moves the sum of the shares by at most half a pixel for each shrinkable column |
| ColumnWidths.RoundingMeaning | WebUI/src/grid.base.js:2262-2290 | shares are rounded to the nearest whole number, halves up, and widths cut off towards zero |
| ColumnWidths.Grid.Adjust | WebUI/src/grid.base.js:2295-2308 | exactly what the last column receives in each case of scroll bar and leftover, and the table width that results |
| ColumnWidths.Grid.SetColWidth | WebUI/src/grid.base.js:2254-2310 | widths and spacing of visible columns differ from `tblwidth` exactly by what `parseInt` cuts off fixed columns and, with a negative scroll offset, off the grid's width; with whole fixed columns they are equal exactly unless that offset meets a fractional grid width; `tblwidth` is the grid width, less the scroll offset, or less one; only shrinkable columns change, each to its rounded share, the last (with whole widths) within half a pixel for each of them |
| HtmlCodec.DecodeIsOnePass | WebUI/src/grid.base.js:21-24 | the four replacements in sequence decode as one pass from left to right would: none decodes what another produced |
| HtmlCodec.EncodeIsCharwise | WebUI/src/grid.base.js:25-27 | the four replacements in sequence encode each character of the original once |
| HtmlCodec.RoundTripIff | WebUI/src/grid.base.js:21-27 | decoding undoes encoding exactly for the texts other than a lone no-break space |
| HtmlCodec.EncodeInjective | WebUI/src/grid.base.js:25-27 | different texts have different encodings |
| HtmlCodec.DecodesToNothingIff | WebUI/src/grid.base.js:22 | exactly the lone no-break space, in its three spellings, and the empty text decode to nothing |
| HtmlCodec.EncodedIsSafe | WebUI/src/grid.base.js:25-27 | an encoded text has no angle bracket or quote, and an ampersand only where one of the four entities begins |
| Cache.BoundedCache.Put | WebUI/jquery-1.9.1.js:3851-3863 | the queue is the latest keys put, at most `cacheLength`; the new value is live, and of the others only that of the oldest key goes, if the queue was full; used only on a miss, the live keys are exactly the queue, each once |
| Cache.LatestMeaning | WebUI/jquery-1.9.1.js:3855-3858 | the queue is as long as the number of keys put, or full, and is the end of the list of all keys put |
| Cache.Tokenizer.Tokenize | WebUI/jquery-1.9.1.js:5014-5079 | hit or miss, the groups have the contents that lexing the selector gives, and are cached from then on; a key is queued only on a miss, and errors are not cached |
| Cache.Tokenizer.ParseOnly | WebUI/jquery-1.9.1.js:5014-5079 | in parse-only mode the result is what lexing leaves over, hit or miss |
| Cache.Tokenizer.TakeOut | WebUI/jquery-1.9.1.js:5463-5505 | deleting a token happens in a fresh array: the cached arrays still hold the full lists |
| ResourceTree.SplitJoin | WebUI/tree.js:31 | splitting at dots undoes joining with dots |
| ResourceTree.ParentIdDropsLast | WebUI/tree.js:37-61 | a physical resource's `parentId` stands for its id without the last part |
| ResourceTree.Tree.AddNode | WebUI/tree.js:150-165 | a node is refused exactly if its layer is more than one beyond the last; else list and layers stay the same nodes, each in its own layer, no physical layer empty |
| ResourceTree.FindsStored | WebUI/tree.js:99-120 | every stored node is found under its id, an unknown id in an existing layer gives the root, and a missing layer a TypeError |
| ResourceTree.Tree.FindById | WebUI/tree.js:99-120 | the loop over the layer that the id's parts name returns the first node with that id, else the root |
| ResourceTree.Tree.FindParent | WebUI/tree.js:77-97 | the loop without a break returns the last node of the layer above whose id equals `parentId`, a numeric 0 being compared loosely |
| ResourceTree.Tree.FindChild | WebUI/tree.js:122-148 | the loops return the nodes of the next layer with this parent in order, and below the root the logical and then the first physical layer |
| ResourceTree.ParentIsPrefix | WebUI/tree.js:77-97 | the parent found is the stored node whose address is the node's without its last part, if there is one |
| ResourceTree.ParentChildInverse | WebUI/tree.js:77-148 | one node is among another's children exactly if that other is its parent |
| ResourceTree.PlacedApart | WebUI/tree.js:178-192 | boxes at the computed places do not overlap within a layer and lie inside the container's width |
| ResourceTree.StripsApart | WebUI/tree.js:178-192 | boxes of two layers that stay in their parts of the height do not overlap |
| ResourceTree.Tree.NodeCoo | WebUI/tree.js:167-193 | the placement sorts each layer by id and keeps list and layers consistent; unless a node object is listed twice it places every node, and in a container wider than a box no two boxes of a layer overlap, and a layer whose rows fit into its even part of the height stays in it; in a container exactly as wide as a box, where the room is infinite, every node goes to the left edge, infinitely far up |

## Left out

- DOM, SVG, CSS, animation, Ajax and event code of jQuery; the panel's user interface, timers and network code; Highcharts; `src/bridge/forward.hpp`.
- Sizzle: tokenizing by regular expressions (token lists are the start), positional pseudos with `setMatcher`, nested matchers with fractional `dirruns`, browser-specific orders (`compareDocumentPosition`, `sourceIndex`), queries that start in another context than the document, and the finder for names of old browsers. That only the document and elements have children is taken from the DOM. Simple filters are arbitrary conditions on elements that do not run the matcher themselves.
- A tree is a value and its nodes are paths; the data that Sizzle writes onto elements are one dictionary from elements and directions to cells. The tree does not change during a run.
- DocumentOrder.Sorter.UniqueSort: where the sort passes equal elements to the comparison at all (`detectDuplicates`), it is taken to do so whenever there are any, as a sort by comparison must.
- Callbacks: `empty()` during a firing, and callbacks that throw. Callbacks are numbers, and what they do is any sequence of operations on the list.
- Deferred: `then`, `always`, `promise`, contexts, and several Deferreds chained together. Arguments are represented by when they were issued.
- When: contexts, and progress.
- QueryFilter.FilterIsFaithfulIff: the equivalence is for filters without empty groups and incomplete rules, and its second half for rules that no two share a comparison, because rules that imply each other can hide a wrong operator. Comparisons are uninterpreted conditions on records; dates, numbers and text functions inside them are not modelled.
- MultiSort.Query.GetOrder: sort keys are real numbers or, through their ranks, texts; keys with no order between them (NaN), and the parsing of numbers and dates, are not modelled. Lower-casing is that of the letters A to Z. `Array.prototype.sort` is any sorted rearrangement; a simple insertion stands in for it, written out once more in `DocumentOrder` because its comparison has an effect.
- SortedGroups.SortAndGroup: page numbers below one; the filter is a condition on rows here.
- Grouping: `isInTheSameGroup`, display values and formatters, rounding, custom summary functions, and group values that are undefined or objects. Cells are real numbers.
- GroupingRender: HTML; a table row is a record. Toggling groups and column indentation are not modelled.
- ColumnWidths.Grid.SetColWidth: the shrinkable columns do not total zero (the code would divide by it); hiding columns by `groupColumnShow` is an input.
- HtmlCodec: values that are not strings.
- Cache: the space appended to keys.
- ResourceTree: the conversion of ids to numbers is arbitrary but for "0" and "1".
- ResourceTree.Tree.NodeCoo: coordinates are real numbers or minus infinity, not floating point. Layers whose rows do not fit into their part of the height may overlap others, and nothing is said about those.
- jqGrid's key index: `refreshIndex` does not clear it, so only live rows could be spoken of.
