# Verified models of the CLIPS 6.30 sources

A Dafny model of the parts of CLIPS (`dependencies/clips-d/c`) that keep linked structures, indexes and orders
in step, with proofs of what they promise. `dafny verify dfyconfig.toml` checks everything.

**Agenda and conflict resolution** (`Ordering`, `MatchSort`, `Agenda*`). Two layers. `AgendaSpec` is a sorted
sequence per module with the steps add, drop, reorder, refresh, set strategy and reset. `AgendaHeap` and the
modules above it are the doubly linked list of activations with the second list of salience groups that cut it
into segments; every operation is proved to be the corresponding step, and to keep the list, the groups, the
counter and the markers in step. `AgendaWorld` gathers what the operations act on in one value, `AgendaEffects` says
what each command does to it, exactly, and `AgendaRuns` carries out any sequence of commands and whole turns of the
engine. The steps never leave an agenda unsorted, and a sorted agenda is determined by its activations, so histories do
not matter.

**Classes** (`Class*`, `Slot*`, `Precedence*`). The class graph with its mirrored links and cached ancestor lists,
adding and deleting classes, marked traversals, the id map, the table of slot names, the instance template with
its index, and the class precedence list (a topological sort that resumes where it left off). Where the order of a walk
matters, it is stated against the plain unfolding of the graph, with each class where it comes first (`Firsts`). Class
precedence is modelled on classes numbered in the order of their definition, the rest on objects; `ClassPreparation`
joins the two.

**Flattening** (`Flatten`, `Function*`). Expression trees written as preorder arrays and read back; function lists
split over files; the table of needed functions written to a binary image and looked up again.

**Constraints** (`Constraints`, `ConstraintTable`) and the **save order** (`SaveOrder`, with `Orders` for orders and
cycles).

**Commands** (`Command*`). `CommandText` says of a text when the command in it is over, `CommandAutomaton` is what the
scanner remembers from character to character, `CommandAnswers` proves that this decides what the text says, and
`CommandScanner` is the code.

## Where the code does less than it seems to promise

Where a member is named, its contract says exactly when this happens.

- A salience outside 32 bits can be taken for one in range (`AgendaEngine.SalienceTakenAsEvaluated`).
- The two tag comparisons of MEA agree for the tags that occur, not for all integers (`Ordering.MeaComparisonsAgree`).
- With more than 65520 class ids the size handed to the reallocation is wrong and entries are lost
  (`ClassIds.ClassIdMap.DeassignClassID`, an input in `ClassIds.LoseEntries`); at 65536 the counter wraps
  (`AssignClassID`, an input in `WrapCounter`).
- Slot name ids and function numbers live in 16 bits (`SlotNames.SlotNameTable.AddSlotName` with
  `SlotNames.RunOutOfIds`, `FunctionImage.WriteNeededFunctions` with `OneTooMany`, `FunctionFiles.FunctionsToCode`;
  the last also fails for exactly 32768 functions when a file holds 32767).
- Removing a class that has subclasses leaves ancestor lists that name it (`ClassDeletion.RemovalNeedsNoSubclasses`,
  an input in `ClassAddition.RemoveParent`).
- A deletion that fails has deleted the classes that come before the first held one, and none exactly when the class
  reached by first subclasses is held (`ClassDeletion.DeleteClassUAG`, an input in `ClassAddition.DeleteHalf`). The
  parser refuses a redefinition while anything at or below the old definition is busy (`classpsr.c:425`), so this is
  reached by undefining a class (`classcom.c:401`) and not by redefining one.
- The resumed function search follows a null link after the end of the list, goes round for ever for an absent
  name after the first function, and looks at the last function found only if that is the first, so that asking for it
  again fails (`FunctionTable.SearchOutcomes`, `PresentFoundIff`, `AskingAgainFails`, `SearchNeverEnds`).
- The header comment of the tag sort says ascending; the code sorts descending, and the comparison relies on it.
- A closing parenthesis before any other token is an error at the next line end, but not when that line end closes a
  comment or lies in a string (`CommandAutomaton.LineEndReports`, an input in `CommentSwallowsError`); it is reported
  at a later line end (`ErrorAnswered`).
- From the 32769th slot name on, the id is negative and the index of a template is written outside its array
  (`SlotTemplate.ClassLayout.FormSlotNameMap`, `AddServed`, an input in `IndexOutside`).
- Resetting the time tags with activations left breaks the order of tags (`AgendaTotals.AgendaClearFunction`, an
  input in `ResetTooSoon`).
- A file of needed functions with fewer names than it says makes the reader run off the names
  (`FunctionImage.ReadNeededFunctions`, `TooFewNames`).

## Model

| member | source | states |
|---|---|---|
| Ordering.BeforeIsKeyOrder | dependencies/clips-d/c/crstrtgy.c:173-941 | for every strategy, "stands ahead of" is lexicographic order of a key of integers: salience, then what the strategy ranks by, then the time tag; what lex and mea rank by is said of the entries of the match by the four rows below |
| Ordering.RecencyDecides | dependencies/clips-d/c/crstrtgy.c:796-941 | at the largest time tag that two matches do not have equally often, the match that has it more often wins, whatever the places and the number of its entries; an entry without a fact carries tag 0 |
| Ordering.SameTagsCompare | dependencies/clips-d/c/crstrtgy.c:856-941 | matches that have every tag equally often are told apart by complexity alone |
| Ordering.NewestWins | dependencies/clips-d/c/crstrtgy.c:856-941 | a match with a tag above all tags of the other wins |
| Ordering.NewestStandsAhead | dependencies/clips-d/c/crstrtgy.c:318-559 | so under lex, and under mea with equal first tags, it stands ahead among equal saliences |
| Ordering.BeforeTotal | dependencies/clips-d/c/crstrtgy.c:86-164 | of two activations with different time tags exactly one stands ahead of the other |
| Ordering.BeforeTransitive | dependencies/clips-d/c/crstrtgy.c:86-164 | standing ahead is transitive, under every strategy |
| Ordering.MeaComparisonsAgree | dependencies/clips-d/c/crstrtgy.c:445-552 | the two ways the MEA code compares first tags agree exactly under the stated condition on the signed tags, and always for tags that are positive or not set |
| Ordering.MeaComparisonsDiffer | dependencies/clips-d/c/crstrtgy.c:445-552 | tag 0 against no tag: the two comparisons answer differently |
| Ordering.SortTagsSorts | dependencies/clips-d/c/crstrtgy.c:796-848 | the specified sort gives a descending permutation of the tags |
| Ordering.DescendingUnique | dependencies/clips-d/c/crstrtgy.c:796-848 | two descending lists with the same tags are equal, so the sort has one possible result |
| Ordering.CompareMatchesFlips | dependencies/clips-d/c/crstrtgy.c:856-941 | swapping the matches flips the answer |
| Ordering.CompareMatchesTransitive | dependencies/clips-d/c/crstrtgy.c:856-941 | the comparison is transitive across matches of different lengths and complexities |
| MatchSort.SortPartialMatch | dependencies/clips-d/c/crstrtgy.c:796-848 | the bubble sort with early exit ends with the entries in descending order, each tag as often as in the match, and one zero for every entry without a fact |
| MatchSort.ComparePartialMatches | dependencies/clips-d/c/crstrtgy.c:856-941 | the loop over the two sorted tag arrays gives the comparison that Ordering.RecencyDecides and SameTagsCompare say of the matches themselves |
| AgendaSpec.InsertSorted | dependencies/clips-d/c/crstrtgy.c:86-164 | plain sorted insertion keeps an agenda sorted and adds exactly the new activation |
| AgendaSpec.ReorderedSorted | dependencies/clips-d/c/agenda.c:817-886 | reordering gives a sorted permutation |
| AgendaSpec.Canonical | dependencies/clips-d/c/agenda.c:817-886 | two sorted agendas with the same activations are the same sequence |
| AgendaSpec.ReorderedFromAnyPermutation | dependencies/clips-d/c/agenda.c:817-886 | reordering any permutation of the activations gives the same agenda |
| AgendaSpec.SwitchAndBack | dependencies/clips-d/c/crstrtgy.c:947-959 | reordering under another strategy and then under the first one gives back the agenda, element for element |
| AgendaSpec.StepKeepsOk | dependencies/clips-d/c/agenda.c:134-789 | each of the steps add, drop, reorder, refresh, set strategy and reset keeps every agenda sorted with distinct time tags below the counter |
| AgendaSpec.RunKeepsOk | dependencies/clips-d/c/agenda.c:134-789 | so does every run of such steps |
| AgendaSpec.HistoryIndependent | dependencies/clips-d/c/agenda.c:817-886 | two histories that end with the same activations and strategy end with the same agenda |
| AgendaGroups.ReuseOrCreateSalienceGroup | dependencies/clips-d/c/agenda.c:207-242 | returns the group of a salience, an old one with nothing changed or a new empty one linked where the saliences stay strictly falling |
| AgendaGroups.FindSalienceGroup | dependencies/clips-d/c/agenda.c:247-265 | returns the group of a salience, or null exactly when no group has it |
| AgendaPlacement.ShortcutIsScan | dependencies/clips-d/c/crstrtgy.c:342-403 | looking only at the end of a group decides the same as scanning the group from the front |
| AgendaPlacement.PlaceDepthActivation | dependencies/clips-d/c/crstrtgy.c:173-230 | returns the place where a front scan by this strategy stops and updates the ends of the group for it |
| AgendaPlacement.PlaceBreadthActivation | dependencies/clips-d/c/crstrtgy.c:239-309 | returns the place where a front scan by this strategy stops and updates the ends of the group for it |
| AgendaPlacement.PlaceLEXActivation | dependencies/clips-d/c/crstrtgy.c:318-410 | the recency comparison is the one of Ordering.RecencyDecides; returns the place where a front scan by this strategy stops and updates the ends of the group for it |
| AgendaPlacement.PlaceMEAActivation | dependencies/clips-d/c/crstrtgy.c:419-559 | the recency comparison is the one of Ordering.RecencyDecides; returns the place where a front scan by this strategy stops and updates the ends of the group for it |
| AgendaPlacement.PlaceComplexityActivation | dependencies/clips-d/c/crstrtgy.c:568-636 | returns the place where a front scan by this strategy stops and updates the ends of the group for it |
| AgendaPlacement.PlaceSimplicityActivation | dependencies/clips-d/c/crstrtgy.c:645-713 | returns the place where a front scan by this strategy stops and updates the ends of the group for it |
| AgendaPlacement.PlaceRandomActivation | dependencies/clips-d/c/crstrtgy.c:722-790 | returns the place where a front scan by this strategy stops and updates the ends of the group for it |
| AgendaInsertion.PlaceActivation | dependencies/clips-d/c/crstrtgy.c:86-164 | placing inside one group, with the pointers relinked, is plain sorted insertion into the whole agenda; list, groups and ends stay well formed |
| AgendaRemoval.RemoveActivationFromGroup | dependencies/clips-d/c/agenda.c:696-752 | the ends of the group move past the activation, or the group goes when it was the only one, and the groups again cut the rest of the agenda into segments |
| AgendaRemoval.TakeOff | dependencies/clips-d/c/agenda.c:616-660 | unlinking an activation gives the agenda without it, still well formed |
| AgendaRemoval.TakeOffDetached | dependencies/clips-d/c/agenda.c:517-560 | the same for detaching, which also clears the links of the activation |
| AgendaReorder.ReorderModule | dependencies/clips-d/c/agenda.c:851-878 | taking the list apart and placing every activation anew gives the sorted permutation |
| AgendaEngine.AgendaData.constructor | dependencies/clips-d/c/agenda.c:95-104 | a new environment (depth strategy, saliences evaluated when defined, empty agendas) satisfies the invariant of all operations |
| AgendaEngine.EvaluateSalience | dependencies/clips-d/c/agenda.c:1246-1318 | evaluated when defined, constant, or no integer: the salience stays; otherwise it is what 32 bits keep of the value if that is from -10000 to 10000, else it stays; the rule stores what is returned |
| AgendaEngine.SalienceTakenAsEvaluated | dependencies/clips-d/c/agenda.c:1300-1318 | in both modes that evaluate again, a value is stored if it is from -10000 to 10000 and rejected otherwise, exactly unless its low 32 bits alone look like another salience in range |
| AgendaEngine.SalienceKept | dependencies/clips-d/c/agenda.c:1246-1318 | no evaluation when saliences are evaluated when defined, for a constant salience, or for a value that is no integer; the two other modes evaluate alike |
| AgendaEffects.EvaluatedAt | dependencies/clips-d/c/agenda.c:1024-1112 | in a refresh each activation gets what its own evaluation comes to, seen from the salience the activation of the same rule before it got, or the rule had |
| AgendaEffects.SaliencesKept | dependencies/clips-d/c/agenda.c:134-1112 | while saliences are evaluated when defined, no command but refreshing agendas changes the salience of any rule |
| AgendaRuns.StoryKeepsSaliences | dependencies/clips-d/c/agenda.c:134-1112 | so over whole runs every rule keeps the salience of the start |
| AgendaEngine.TruncatedSalienceAccepted | dependencies/clips-d/c/agenda.c:1300-1318 | a value far out of range that is taken for salience 5 |
| AgendaOperations.AddActivation | dependencies/clips-d/c/agenda.c:134-202 | one sorted insertion with the next time tag into the agenda of the module of the rule; counter, markers and every other agenda follow |
| AgendaCommands.RemoveActivation | dependencies/clips-d/c/agenda.c:616-691 | for every setting of the two flags: on an agenda exactly that activation is dropped, detached it is freed, the counter goes down by one, and the marker of its match is cleared or left as asked; the invariant survives exactly when its match is not left pointing at it and, if cleared, did not point at another one on an agenda |
| AgendaCommands.DetachActivation | dependencies/clips-d/c/agenda.c:517-575 | the activation leaves the agenda and stays counted |
| AgendaCommands.ReleaseBasis | dependencies/clips-d/c/engine.c:303 | after clearing the marker of the match of a detached activation, markers and bases are still inverse |
| AgendaSweep.ClearRuleFromAgenda | dependencies/clips-d/c/agenda.c:270-312 | exactly the activations of the disjuncts of the rule are dropped, and exactly the matches that pointed at them point at nothing; the rest keep their order |
| AgendaSweep.RemoveAllActivations | dependencies/clips-d/c/agenda.c:768-789 | the agenda ends empty, without a group left to free; exactly the matches that pointed at it point at nothing |
| AgendaSweep.NoActivationNoGroup | dependencies/clips-d/c/agenda.c:780-789 | a well-formed agenda without activations has no groups |
| AgendaStrategy.EnvSetStrategy | dependencies/clips-d/c/crstrtgy.c:947-959 | every agenda is resorted under the new strategy; the old strategy is returned |
| AgendaStrategy.StrategyThereAndBack | dependencies/clips-d/c/crstrtgy.c:947-959 | setting another strategy and then the old one gives back all agendas |
| AgendaStrategy.ValidIsOk | dependencies/clips-d/c/agenda.c:134-789 | the invariant of the linked structures implies the one of the abstract runs |
| AgendaStrategy.SwitchStrategyAndBack | dependencies/clips-d/c/crstrtgy.c:947-959 | the same on the linked lists: the activations of every module are the same objects in the same order |
| AgendaRefresh.EnvReorderAgenda | dependencies/clips-d/c/agenda.c:817-886 | reordering the agenda of one module resorts it and leaves the others; with no module given all agendas are resorted, which is a run of one reordering after the other |
| AgendaRefresh.ReorderAllIsRun | dependencies/clips-d/c/agenda.c:845-886 | resorting the first k agendas at once is the run of k single reorderings |
| AgendaRefresh.EnvRefreshAgenda | dependencies/clips-d/c/agenda.c:1024-1112 | saliences are evaluated again, in agenda order, each evaluation seeing what the ones before it stored in the rules, and the agenda is sorted by them, for one module or for all in turn; no module sees what was evaluated for another; the rules end with the last value stored; the evaluation mode is put back |
| AgendaRuleRefresh.EnvRefresh | dependencies/clips-d/c/agenda.c:937-981 | the effect is that of adding for the complete matches one after the other: a match with an activation keeps it, one without gets one for its disjunct with the evaluated salience; of two such matches the one that stands earlier in the memories, disjunct by disjunct, has the smaller tag, and the tags are those from the old counter up to the new one; the counter grows by the number of such matches |
| AgendaRuleRefresh.RefreshOrdered | dependencies/clips-d/c/agenda.c:937-981 | the order of tags: by place of the match in the memories, without gaps, each for the rule in whose memory the match is first met |
| AgendaRequests.AddsTags | dependencies/clips-d/c/agenda.c:964-972 | the tag of a new activation is the counter of the start and the number of activations made before it |
| AgendaRuleRefresh.RefreshTwice | dependencies/clips-d/c/agenda.c:937-981 | two refreshes lead where one does: the second finds every match with an activation and adds nothing |
| AgendaRuleRefresh.NewActivationsCounted | dependencies/clips-d/c/agenda.c:937-981 | the number of new activations is the number of matches that had none |
| AgendaTotals.NumberOfActivationsIsTotal | dependencies/clips-d/c/agenda.c:134-202 | the counter is the sum of the lengths of all agendas plus the number of detached activations |
| AgendaTotals.AgendaClearFunction | dependencies/clips-d/c/agenda.c:758-762 | the time tags start over whatever the agendas hold; the invariant of the environment survives exactly when no activation is left, which is when the reset is a step of the machine |
| AgendaTotals.ResetTooSoon | dependencies/clips-d/c/agenda.c:758-762 | an environment with one activation that the reset leaves broken |
| AgendaRuns.PerformAll | dependencies/clips-d/c/agenda.c:134-1112 | any sequence of the fifteen commands (add, remove at a place, retract a match, detach, let a match go, free, clear a rule, remove all, reorder, refresh agendas, refresh a rule, store matches, change strategy, change the evaluation mode, reset the counter) on the linked agendas keeps the invariant, goes through worlds each of which is the exact effect of the command, and is a run of the abstract machine |
| AgendaRuns.Perform | dependencies/clips-d/c/agenda.c:134-1112 | one command has exactly its effect on agendas, tags, saliences, markers, memories and detached activations, and none when it names something that is not there |
| AgendaRuns.FireRule | dependencies/clips-d/c/engine.c:255-414 | one turn of the engine: the first activation is detached and let go by its match, the actions of the rule ask anything of the agendas, and in the end exactly that activation is freed |
| AgendaRuns.FiringEnds | dependencies/clips-d/c/engine.c:255-414 | whatever the actions do, the detached activations afterwards are those of before |
| AgendaRuns.ActionUnpointed | dependencies/clips-d/c/engine.c:303-414 | no action makes a match point again at an activation that was let go, so that it can be freed without looking |
| AgendaEffects.EffectDecided | dependencies/clips-d/c/agenda.c:134-1112 | a command has one possible effect, up to which new objects the new activations are |
| AgendaEffects.EffectIsRun | dependencies/clips-d/c/agenda.c:134-1112 | on the agendas every effect is a run of the abstract machine |
| AgendaWorld.AddUnlessMarked | dependencies/clips-d/c/agenda.c:964-972 | a match without an activation gets one, with the next tag and the evaluated salience of its rule; one that has an activation is left alone |
| ClassGraph.CachedExactly | dependencies/clips-d/c/object.h:103-105 | a cached ancestor list names exactly the classes from which the class is reached by subclass links |
| ClassGraph.ReducedWellFormed | dependencies/clips-d/c/classfun.c:1031-1051 | taking out a set of classes closed under subclasses keeps links mirrored and ancestor lists right |
| ClassDeletion.AddClassLink | dependencies/clips-d/c/classfun.c:389-416 | inserts at a position or at the end and keeps the others in order |
| ClassDeletion.DeleteSubclassLink | dependencies/clips-d/c/classfun.c:429-458 | removes the first link to the class, or nothing |
| ClassDeletion.DeleteSuperclassLink | dependencies/clips-d/c/classfun.c:472-501 | the same for the superclass list |
| ClassDeletion.RemoveDefclass | dependencies/clips-d/c/classfun.c:723-749 | the class is gone from the table and all link lists, which lose nothing else and stay mirror images, with or without subclasses |
| ClassDeletion.RemovalNeedsNoSubclasses | dependencies/clips-d/c/classfun.c:709-749 | the ancestor lists stay right exactly when the removed class had no subclasses; otherwise some survivor still names it |
| ClassDeletion.IsClassBeingUsed | dependencies/clips-d/c/classfun.c:962-973 | true exactly when the class or some descendant is busy |
| ClassDeletion.EnvIsDefclassDeletable | dependencies/clips-d/c/classcom.c:342-360 | true exactly when constructs are deletable, the class is no system class, and nothing at or below is busy |
| ClassDeletion.DeleteClassUAG | dependencies/clips-d/c/classfun.c:1031-1051 | succeeds exactly when every class at or below can go, and then removes exactly these; in every case exactly the peeled classes are gone, so that nothing has changed exactly when the first leaf is held; the graph stays well formed and other links are kept |
| ClassPeeling.PeelsIff | dependencies/clips-d/c/classfun.c:1031-1051 | something is taken away exactly when the class reached by first subclasses is free |
| ClassPeeling.PeeledIsPrefix | dependencies/clips-d/c/classfun.c:1031-1051 | what is taken away is the part of the removal order before the first held class |
| ClassPeeling.PeelOrderIsBelow | dependencies/clips-d/c/classfun.c:1031-1051 | the removal order holds every class left at or below, each once, and none before one below it |
| ClassPeeling.PeelOrderIsWalk | dependencies/clips-d/c/classfun.c:1031-1051 | it is the order of a walk that takes subclasses from first to last and a class behind all that is below it, each class where it comes first |
| ClassPeeling.PeeledIsWalked | dependencies/clips-d/c/classfun.c:1031-1051 | so what a deletion takes away is the part of that walk before its first held class |
| ClassPeeling.PeelThrough | dependencies/clips-d/c/classfun.c:1036-1045 | working on the first subclass first, and again while it stays, takes away the same classes |
| ClassAddition.DeleteHalf | dependencies/clips-d/c/classfun.c:1031-1051 | a class with a free and a busy subclass: the deletion fails, and the free one is gone |
| ClassAddition.RemoveParent | dependencies/clips-d/c/classfun.c:709-749 | a class with two subclasses: removed alone, it is still named by a survivor |
| ClassAddition.BuildSubclassLinks | dependencies/clips-d/c/classpsr.c:648-656 | appends the class to the subclass list of each superclass and changes no other list |
| ClassAddition.AddClass | dependencies/clips-d/c/classpsr.c:564-598 | exactly the peeled classes of an old definition go, all of them when they are free; the new class is appended to the lists of its superclasses; every other link list is the old one without the classes that went; the graph stays well formed |
| ClassPreparation.ListIsAncestors | dependencies/clips-d/c/inherpsr.c:313-492 | the precedence list found for some superclasses names exactly the classes in their ancestor lists |
| ClassPreparation.ListPrepares | dependencies/clips-d/c/classpsr.c:564-598 | a new class whose ancestor list is itself and the list that was found meets what adding it requires |
| ClassTraversal.VisitExact | dependencies/clips-d/c/classinf.c:1043-1111 | a fresh traversal visits each proper descendant once and nothing else |
| ClassTraversal.VisitInOrder | dependencies/clips-d/c/classinf.c:1043-1111 | the visit is the unfolding of the graph, every class followed by all that is below it, with each class where it comes first |
| ClassTraversal.VisitDirect | dependencies/clips-d/c/classinf.c:1043-1111 | without inheritance it visits the direct subclasses in order |
| ClassTraversal.CountSubclasses | dependencies/clips-d/c/classinf.c:1043-1063 | returns the length of the visit, marks exactly what it visits, and touches no other mark |
| ClassTraversal.StoreSubclasses | dependencies/clips-d/c/classinf.c:1078-1111 | writes exactly the visit, in order, from the given position on, inside the buffer and nowhere else |
| ClassTraversal.GetTraversalID | dependencies/clips-d/c/classfun.c:1171-1191 | gives an id with no class marked, or -1 when 256 are out; other marks stay |
| ClassTraversal.EnvClassSubclasses | dependencies/clips-d/c/classinf.c:581-604 | a buffer of exactly the right size with each proper descendant once, a class followed by what is first reached below it before its next sibling, or the direct subclasses in order; none exactly when no id is left; marks of outer traversals stay |
| ClassIds.ClassIdMap.AssignClassID | dependencies/clips-d/c/classfun.c:591-609 | the next id maps to the class, which is the abstract step; the invariant of the map is kept exactly when that step is possible, that is, when the 16-bit counter does not wrap |
| ClassIds.ClassIdMap.DeassignClassID | dependencies/clips-d/c/classfun.c:1304-1341 | the map is the old one without the class and without unused ids at the top exactly when the abstract step is possible, a condition on the sizes before and after; otherwise all but the first 14 entries are lost |
| ClassIds.CapacityIsCeiling | dependencies/clips-d/c/classfun.c:597-602 | the capacity is the number of ids rounded up to chunks of 30 |
| ClassIds.RunKeepsIds | dependencies/clips-d/c/classfun.c:591-609 | over every history from the empty map, within the 16-bit bounds and at every point, a class keeps its id until it is taken out, no class has two, and the top id is in use |
| ClassIds.RunOnMap | dependencies/clips-d/c/classfun.c:591-609 | every such history carried out on the map ends in the map the abstract run ends in; the capacity is right and each class has the id under which it is found |
| ClassIds.LoseEntries | dependencies/clips-d/c/classfun.c:1304-1341 | a map with 65521 ids that loses all but 14 entries |
| ClassIds.WrapCounter | dependencies/clips-d/c/classfun.c:591-609 | a map with 65535 ids that the next class leaves broken |
| SlotNames.SlotNameTable.AddSlotName | dependencies/clips-d/c/classfun.c:624-669 | counts a use or enters the name with the asked or the least unused id, cut to 16 bits; a different id for a known name is the system error; a valid table stays valid, and this is the abstract step, exactly when what 16 bits keep of the asked id is free (65541 counts as 5), or fewer than 32768 names are in the table |
| SlotNames.SlotNameTable.DeleteSlotName | dependencies/clips-d/c/classfun.c:682-707 | one use less; the entry is unlinked exactly at the last one |
| SlotNames.SlotNameTable.NewSlotNameID | dependencies/clips-d/c/classfun.c:1268-1291 | ends with the least id nobody has, at most the number of names |
| SlotNames.SlotNameTable.FindSlotNameID | dependencies/clips-d/c/classfun.c:1101-1111 | the id of the name, or -1 |
| SlotNames.SlotNameTable.FindIDSlotNameHash | dependencies/clips-d/c/classfun.c:1139-1157 | the entry with the id, none exactly when nobody has it |
| SlotNames.SlotNameTable.FindIDSlotName | dependencies/clips-d/c/classfun.c:1121-1129 | the name with the id, if any |
| SlotNames.LookupsAreInverse | dependencies/clips-d/c/classfun.c:1101-1157 | looking up the id of a name and the name of an id undo each other and fail together |
| SlotNames.RunCountsUses | dependencies/clips-d/c/classfun.c:624-707 | after every run of adds, adds with an id asked for, and deletes, ids are distinct and fit 16 bits, and the use count of a name is the number of its outstanding adds, zero meaning gone |
| SlotNames.NameStepUnique | dependencies/clips-d/c/classfun.c:624-707 | a step leads to one table only |
| SlotNames.RunOnTable | dependencies/clips-d/c/classfun.c:624-707 | every run of steps carried out on the table goes through the tables the abstract run goes through |
| SlotNames.RunOutOfIds | dependencies/clips-d/c/classfun.c:624-669 | the next two names after 32768 others both get id -32768 |
| SlotNames.FullWraps | dependencies/clips-d/c/classfun.c:624-669 | once the ids from 0 to 32767 are taken, every new name gets id -32768 |
| SlotTemplate.TemplateExact | dependencies/clips-d/c/classpsr.c:669-706 | one descriptor per visible name, and it is the own slot or else the one of the first class in the precedence list with an inheritable slot of that name |
| SlotTemplate.TemplateOrdered | dependencies/clips-d/c/classpsr.c:669-804 | of two entries the one whose class comes later in the precedence list stands first, and entries of one class stand in the order of its slots |
| SlotTemplate.TemplateHolds | dependencies/clips-d/c/classpsr.c:669-804 | all own slots are entries, of other classes only inheritable ones are, and every name of an inheritable slot has an entry |
| SlotTemplate.MergeSlots | dependencies/clips-d/c/classpsr.c:765-804 | puts the slots that are allowed and not yet named in front of the list, in their order |
| SlotTemplate.ClassLayout.FormInstanceTemplate | dependencies/clips-d/c/classpsr.c:669-706 | the template array holds exactly the slots that win their names, classes from the end of the precedence list to its front and each with its slots in their order; the local count is the number of entries that are not shared |
| SlotTemplate.ClassLayout.FormSlotNameMap | dependencies/clips-d/c/classpsr.c:730-748 | every access is inside the array exactly when no id is negative, and the first one outside is the first negative id; the map takes an id to one more than the position of the last entry that has it, and to 0 when there is none; all is inside and every entry is found exactly when ids are not negative and distinct; as long as the largest id asks |
| SlotTemplate.TemplateIndexable | dependencies/clips-d/c/classpsr.c:669-748 | a formed template can be indexed exactly when the ids of the visible names are not negative and tell them apart |
| SlotTemplate.ServesAllIff | dependencies/clips-d/c/classpsr.c:730-748 | all classes with slots from a table of names can be indexed exactly when the ids in the table are distinct and not negative |
| SlotTemplate.AddServed | dependencies/clips-d/c/classfun.c:624-669 | after a new name that is so exactly when fewer than 32768 names were in the table |
| SlotTemplate.IndexOutside | dependencies/clips-d/c/classpsr.c:730-748 | a class with two slots of id -32768: the access is outside the array |
| PrecedenceSort.SortTable | dependencies/clips-d/c/inherpsr.c:371-431 | each node taken is the first free one behind the last one taken, going round the table; the order respects all recorded pairs, and gets through exactly when they have no cycle |
| Orders.ResumedUnique | dependencies/clips-d/c/inherpsr.c:371-431 | there is only one order with that property, so it says exactly what the scan finds; the same holds of the order in which modules are saved |
| PrecedenceSort.TableOrderKept | dependencies/clips-d/c/inherpsr.c:224-229 | when the order of the table is already right, it is kept |
| Precedence.TableExact | dependencies/clips-d/c/inherpsr.c:549-592 | the table holds the superclasses and all their ancestors, each once |
| Precedence.EnteredInOrder | dependencies/clips-d/c/inherpsr.c:549-592 | classes are entered as they first come up on the ways up from the superclasses, depth first |
| PrecedenceRules.FamilyInWalkOrder | dependencies/clips-d/c/inherpsr.c:313-325 | the classes that take part stand in the order of that walk |
| PrecedenceFinder.InitializePartialOrderTable | dependencies/clips-d/c/inherpsr.c:549-592 | enters each new class followed by its ancestors |
| PrecedenceList.PartialOrderTable.RecordPartialOrders | dependencies/clips-d/c/inherpsr.c:629-649 | records the class before each successor from a position on; counts and successor lists agree |
| PrecedenceRules.CyclesAgree | dependencies/clips-d/c/inherpsr.c:313-452 | the table has a cycle exactly when the two rules of inheritance contradict each other |
| PrecedenceRules.InheritingFromItself | dependencies/clips-d/c/inherpsr.c:325-344 | redefining a class below itself contradicts the rules |
| PrecedenceFinder.FindPrecedenceList | dependencies/clips-d/c/inherpsr.c:313-492 | a list is found exactly when the rules do not contradict each other; it names every ancestor once, every class before its superclasses, and the superclasses of every class and those given in their order; each class is the first one that the rules allow by then, behind the one before it and going round the family, so that the depth-first order of the family is kept whenever the rules allow it |
| Flatten.RebuildsFlat | dependencies/clips-d/c/conscomp.c:1004-1144 | following the printed references from where a tree was written rebuilds it: the same shape, and at every node the same type, with the value if that is printed by reference, the dummy object for a fact or instance address, and nothing otherwise |
| Flatten.ReferencesLoaded | dependencies/clips-d/c/conscomp.c:1004-1144 | a tree all of whose values are printed by reference is read back as it was |
| Flatten.RebuildKept | dependencies/clips-d/c/conscomp.c:935-998 | what was written still reads the same after more is written |
| Flatten.ConstructCompiler.DumpExpression | dependencies/clips-d/c/conscomp.c:1004-1144 | appends the structures of the tree in preorder with computed references, and the fixups of its fact and instance addresses |
| Flatten.ConstructCompiler.ExpressionToCode | dependencies/clips-d/c/conscomp.c:935-998 | the printed reference reads back as the expression, value by value as Flatten.RebuildsFlat says; everything written before still reads the same; a new file is begun exactly when the last one is full |
| Flatten.ConstructCompiler.HashedExpressionsToCode | dependencies/clips-d/c/conscomp.c:885-901 | the id of every hashed expression, divided by the number of indices, leads to the file and position where that expression reads back |
| Flatten.Decodes | dependencies/clips-d/c/conscomp.c:908-928 | quotient and remainder of an id are the version and the count it was made from |
| FunctionFiles.FunctionsToCode | dependencies/clips-d/c/conscomp.c:645-726 | every printed function reference leads to the structure of its function, exactly when the 16-bit counters suffice |
| FunctionFiles.ReferenceWraps | dependencies/clips-d/c/conscomp.c:732-742 | the reference of function 32768 has a negative index or a file that is never written |
| FunctionImage.WriteNeededFunctions | dependencies/clips-d/c/bsave.c:320-375 | the file holds the count of needed functions, the bytes of the name block and the names of those whose 16-bit number is not negative; numbers are positions exactly for at most 32768 needed functions, and then all names are there |
| FunctionImage.ReadableIff | dependencies/clips-d/c/bsave.c:320-375 | the written file holds as many names as it says exactly when at most 32768 functions are needed |
| FunctionImage.OneTooMany | dependencies/clips-d/c/bsave.c:320-375 | for 32769 needed functions, whatever their names, the last number is negative and no reading of the file succeeds |
| FunctionImage.TerminatedIff | dependencies/clips-d/c/bload.c:470-500 | a block has too few terminated names exactly when it does not start with that many names |
| FunctionImage.TooFewNames | dependencies/clips-d/c/bload.c:470-500 | when more names are asked for than were written, reading crashes or runs off the block |
| FunctionImage.FunctionBinarySize | dependencies/clips-d/c/bsave.c:382-397 | the space is the length of the name block |
| FunctionImage.InitializeFunctionNeededFlags | dependencies/clips-d/c/bsave.c:288-297 | no function is marked as needed |
| FunctionImage.ReadNeededFunctions | dependencies/clips-d/c/bload.c:441-526 | for every file as long as its head says: the outcome of looking up the terminated names one after the other, and running off the block exactly when they are fewer than the count and no search crashed before |
| FunctionImage.SaveAndLoad | dependencies/clips-d/c/bload.c:441-526 | over the same list with distinct names, every needed function is found at its number |
| FunctionTable.FastFindFunction | dependencies/clips-d/c/bload.c:532-574 | the exact outcome of the resumed search: found, not found, or stuck |
| FunctionTable.SearchOutcomes | dependencies/clips-d/c/bload.c:532-574 | it gets stuck exactly when the last function ends the list, or is the first and nobody has the name; otherwise it finds exactly the names other than that of a last function that is not the first |
| FunctionTable.NearestFound | dependencies/clips-d/c/bload.c:532-574 | of several functions with the name, the first behind the last one found, or else the first of all, is found |
| FunctionTable.PresentFoundIff | dependencies/clips-d/c/bload.c:532-574 | with distinct names, exactly when a function that is in the list is found, and then where it is |
| FunctionTable.AskingAgainFails | dependencies/clips-d/c/bload.c:532-574 | asking again for the function just found, inside the list, does not find it |
| FunctionTable.FoundAhead | dependencies/clips-d/c/bload.c:532-574 | a function after the last one found is found without wrapping around |
| FunctionTable.LoadsInOrder | dependencies/clips-d/c/bload.c:470-498 | names in list order are all found, each where it was |
| FunctionTable.SearchNeverEnds | dependencies/clips-d/c/bload.c:559-564 | resumed after the first function, the search for an absent name never ends |
| Constraints.ConstraintCompare | dependencies/clips-d/c/constrnt.c:332-420 | true exactly for records of equal structure, nested records included |
| Constraints.HashConstraint | dependencies/clips-d/c/constrnt.c:269-325 | computes a function of the structure, so equal records have equal hashes |
| ConstraintTable.ConstraintData.AddConstraint | dependencies/clips-d/c/constrnt.c:426-455 | returns the stored record of that structure with one more use, or stores this one |
| ConstraintTable.ConstraintData.RemoveConstraint | dependencies/clips-d/c/constrnt.c:211-259 | one use less; unlinked exactly at zero; a record that is not on its chain is left alone |
| ConstraintTable.RunCounts | dependencies/clips-d/c/constrnt.c:211-455 | after every run the count of a structure is adds minus removes |
| ConstraintTable.Serve | dependencies/clips-d/c/constrnt.c:211-455 | any sequence of records handed in and results taken back: in the end two results that are out are the same record exactly when the structures handed in are equal, each is in the table with one use per add of its structure that is out, and at every request a record leaves exactly when that number reaches zero; the uses are those of the run of adds and removes |
| CommandScanner.CompleteCommand | dependencies/clips-d/c/commline.c:267-404 | the answer is what the text says. A string counts as a pair of parentheses and a comment as nothing but the end of its line; the command is over at the first line end behind a symbol outside parentheses, or outside strings behind its closed parentheses or behind a stray one that no comment hides. The answer is 0 when it is never over, -1 when a parenthesis is stray, else 1; nothing behind the terminator is read |
| CommandAnswers.AnswerOfText | dependencies/clips-d/c/commline.c:267-404 | the same of the one-pass automaton that the code carries out |
| CommandAnswers.TextDecides | dependencies/clips-d/c/commline.c:267-404 | before the line at which the command is over the automaton remembers exactly what the text so far says |
| CommandAnswers.ParenthesesBalance | dependencies/clips-d/c/commline.c:291-340 | a command without strings and comments that starts with a parenthesis is complete exactly when some line ends after as many parentheses have been closed as opened, and is never an error |
| CommandAnswers.SymbolEndsLine | dependencies/clips-d/c/commline.c:341-390 | a command that starts with a symbol is complete at the end of its line and not before |
| CommandAnswers.BlankingKeeps | dependencies/clips-d/c/commline.c:267-488 | what stands in strings and comments makes no difference, unless a parenthesis is stray or a line ends inside a string after a symbol outside parentheses |
| CommandAutomaton.LineEndReports | dependencies/clips-d/c/commline.c:291-340 | after a closing parenthesis that opens a command, the end of a line gives -1 exactly outside strings and outside comments that follow no whole command |
| CommandAutomaton.ErrorAnswered | dependencies/clips-d/c/commline.c:267-404 | from then on the answer is -1 exactly when some later line ends at such a point, else 0, and never 1 |
| CommandAutomaton.SwallowedComesOut | dependencies/clips-d/c/commline.c:322-334 | an error swallowed by a comment is reported at the end of the next line in which no string and no comment begins |
| CommandAutomaton.CommentSwallowsError | dependencies/clips-d/c/commline.c:322-334 | a closing parenthesis alone gives -1; with a comment after it 0, and -1 one line later |
| CommandScanner.DoString | dependencies/clips-d/c/commline.c:410-465 | stops behind the closing quote, or at the terminator when there is none |
| CommandScanner.DoComment | dependencies/clips-d/c/commline.c:471-488 | stops at the end of the line or at the terminator |
| CommandScanner.DoWhiteSpace | dependencies/clips-d/c/commline.c:494-508 | stops at the first character that is no white space; what it skips the automaton ignores |
| CommandAutomaton.AnswerIsStable | dependencies/clips-d/c/commline.c:257-266 | once a text has an answer, every extension has the same |
| CommandAutomaton.AnswersMonotone | dependencies/clips-d/c/commline.c:257-266 | typed piece by piece, a text is incomplete up to some piece and has one answer from there on |
| CommandAutomaton.AnswersInRange | dependencies/clips-d/c/commline.c:257-266 | the answers are 1 and -1 |
| SaveOrder.EnvSave | dependencies/clips-d/c/constrct.c:247-304 | each module saved is the first one not yet saved whose imports are, behind the one saved before it and going round the list; so each is saved at most once and after its imports; the system error comes exactly when the imports have a cycle, and otherwise every module is saved |
| SaveOrder.AllImportedModulesVisited | dependencies/clips-d/c/modulutl.c:589-607 | true exactly when every imported module has been visited |
| Orders.KnotHasCycle | dependencies/clips-d/c/constrct.c:278-299 | when nothing that is left can be saved, there is a cycle |
| Orders.CycleNotOrdered | dependencies/clips-d/c/constrct.c:264-291 | no module on a cycle is ever saved |

## Left out

- Evaluating salience expressions, random numbers and the hash values of atoms: parameters of the operations; a salience expression that changes the agenda while it is evaluated is not modelled.
- The change flag of the agenda, focus and auto-focus, watch tracing and all printing.
- Moving an activation to the top and setting the salience of one activation: they bypass the salience groups.
- Time tags are unbounded integers, and so are use counts, depths, slot counts and expression sizes; only the 16-bit and 32-bit fields named above wrap.
- Chains of hash tables and of join memories are sequences, so the link fields inside them are not modelled; the class table is one sequence of all its chains.
- ClassDeletion.RemoveDefclass: models the links and the table; freeing slots, handlers, constraints and the id is modelled in the other class modules or not at all.
- ClassDeletion.AddClassLink: the count of links is not cut to 16 bits.
- ClassAddition.AddClass: the parser's promises about the new class (superclasses known, none twice, ancestor list complete) are requirements; ClassPreparation.ListPrepares gets them from the precedence list.
- Storing the names of subclasses instead of the classes, which differs only in what is put in the buffer.
- Printing the loop when no precedence list exists.
- Flatten.ConstructCompiler.ExpressionToCode: failing to open a file is not modelled; values that are printed as references are kept as they are.
- FunctionImage.ReadNeededFunctions: a file that ends before the bytes its head announces is not modelled, and neither is what lies behind the block when the reader runs off it.
- AgendaRuns.PerformAll: where the source would run into trouble (freeing an activation that a match still points at, resetting the tags with activations left), the command is passed over; AgendaCommands.RemoveActivation and AgendaTotals.AgendaClearFunction say what the code does there. What the network does to compute matches is not modelled: matches are stored by a command.
- ConstraintTable.ConstraintData.AddConstraint: installing and freeing the expressions of a record is not modelled; lists are compared by type and value only, as in the source.
- CommandScanner.CompleteCommand: printing characters are those of the C locale.
- SaveOrder.EnvSave: what is written for a module is only its place in the order; opening the file is not modelled.
- Removing all user classes, parsing, instance handling, binary images of constructs, mathematical functions, memory pools and the command loop.
