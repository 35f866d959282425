# survival_kit: what its trie, its exceptions, its parsers and its buffers promise

This project models the parts of the survival_kit C library that are hardest to get right, and
proves what they promise for every input, every run and every depth of nesting. The files verify
with `dafny verify dfyconfig.toml`.

**The trie** (`survival_kit/trie.c`). `TrieShape` holds the tree as a value: a map from paths to
cells, each a leaf, an edge of 1 to 12 bytes, a node of 2 to 12 children or a table. `TrieLookup`
is the search, with the backtracking of the case-insensitive mode, `TrieOps` the set and the get,
`TrieRuns` whole runs beside a plain finite map, `TrieFold` and `TrieFoldRuns` the case-insensitive
side, `TrieText` the returned text, which the branches tried write one over the other. `TrieNodes`
and `TrieHeap` are the C code itself: node objects whose arrays, byte buffers and counters are
rewritten in place, a key buffer of the length of the longest key, loops over the bytes of an edge
and the entries of a node; each method is proved against the value. `TrieCursor` and `TrieIter`
are the depth-first iterator with its preallocated frames, `TrieSessions` several iterators
interleaved with gets and sets, `TrieClients` the objects whose calls are those steps, `KeyOrder`
the comparison that orders the keys.

**Exceptions and scope guards** (`survival_kit/feature_emulation`). `JumpMachine` takes a setjmp
slot for a label (the place in the macro text behind the setjmp) with the depth of the C stack,
and the macros for steps over the three jump stacks. `JumpStacks` and `JumpMacros` are the macros
as code on a thread context whose jump stacks are free-stacks of linked nodes and whose functions
find their exit slot through a pointer; they refine the machine. `JumpMeaning` says what
structured exceptions and guards mean without jumps, and `JumpProof` that the machine does just
that, and when it does not. Programs are finite trees of statements: a loop or a branch stands for
what it runs, a recursive function for its unrolling, so every execution that ends is covered.
`Inheritance` and `CatchOrder` decide which clause catches.

**Parsing expressions** (`survival_kit/parsing`). `Peg` holds the expressions, their meaning as a
parsing expression grammar, and what the macros produce: match, error and callbacks. `PegMacros`
is the macros with their variables, loops and restored cursors, `PegCalls` what each macro matches
and calls, `PegTheorems` the link to the meaning, the balanced expansions and the end of parsing,
`PegLookup` the keyword index.

**Buffers and stacks.** `ArrayFilter` (in-place stable filter), `FreeStack` (linked stacks and
free-stacks with real pointers), `Loaf` (text whose storage moves behind a handle).

## Where the code differs from its documentation

The models follow the code.

- `skit_exact_match` and `skit_prefix_match` (`survival_kit/trie.c:170-178`) do not look at
  `n_chars_into_node`: a key that ends strictly inside an edge leaving a node with a value is taken
  for the key of that node. `InsideValueEdge` is that condition on the stored tree (`StopsMeans`);
  the theorems on runs, gets, sets and keyword lookups are stated with it, both ways. With `i` it is
  `InsideFold` for finding anything at all, and `FirstInside` for finding the wrong thing on a trie
  that has keys in both cases. `GetDiffers`, `FoldGetDiffers`, `WrongKeyword` and
  `ThirdKeywordThrows` are concrete failures.
- `survival_kit/trie.h:134-141` promises `SKIT_TRIE_KEY_NOT_FOUND` and
  `SKIT_TRIE_KEY_ALREADY_EXISTS`; the code throws `SKIT_EXCEPTION` (`survival_kit/trie.c:997-1025`).
- `survival_kit/trie.h:155` and `:190` promise the exact key acted on. A table records the byte of
  the query (`survival_kit/trie.c:324`), so with `i` the text may have another case (`TextIsKey`).
- `sSCOPE` blocks may follow one another or stand between other statements of a function, as in
  the example in `survival_kit/feature_emulation/scope.h:75-85`; only nesting is forbidden. But the
  mark that guards were used is never cleared. After a block in which a guard was reached, the end
  of another block, an `sRETURN` or an exception of the function itself scans again and takes slots
  of other functions, and a guard of another block is entered without an exit slot of its own and
  is overwritten by the scan. `Breaks` is that condition and `FunctionsSound` says that all other
  functions, and only those, are sound; `SecondGuardSkipped` and `ThrowBehindBlockDies` are
  concrete failures.
- A guard may not be left by an exception. The message for that (`survival_kit/feature_emulation/scope.h:200-209`)
  is reached only by exceptions of callees without sTRACE: any other first scans the guards again
  from inside the guard and dies in a later scan (`GuardThrowDies`).
- `skit_is_a` starts as if index 0 had been passed (`survival_kit/inheritance_table.c:167`), so it
  needs a root there (`IsADecides`).
- `fstack_walk` with a start node among the used ones starts at the top used node
  (`survival_kit/templates/fstack.c:172-183`; `UsedStart`).

## Model

| member | source | states |
|---|---|---|
| TrieRuns.RunMeetsMap | survival_kit/trie.c:523-1045 | over a whole run of case-sensitive gets and sets, every answer and the stored pairs after every call are those of a finite map given the same calls, if and only if each call of the run is clear: its key does not end strictly inside an edge that leaves a node with a value, or it is a set that is refused outright |
| TrieRuns.RunRefines | survival_kit/trie.c:523-1045 | every run of case-sensitive calls is, call by call, a run of a finite map in which each call acts on the key that the unguarded match test makes of its own |
| TrieRuns.MapRunThreads | survival_kit/trie.c:523-1045 | each call of a run meets the pairs that the call before it left |
| TrieRuns.GetDiffers | survival_kit/trie.c:170-178 | the failing family is not empty: after storing `abc` and then the empty key, a get of `ab` finds the value of the empty key |
| TrieRuns.NoPrefixIsClear | survival_kit/trie.c:170-183 | a call on a key that has no stored key as a proper prefix is clear |
| TrieOps.GetMeetsMap | survival_kit/trie.c:523-547 | a case-sensitive get is a lookup in the finite map if and only if the key does not end inside an edge that leaves a node with a value |
| TrieOps.SetMeetsMap | survival_kit/trie.c:950-1045 | a case-sensitive set is the update that `c` and `o` ask for (create, overwrite, or an exception and no change), exactly under the same condition |
| TrieOps.SetDoes | survival_kit/trie.h:130-155 | in words, for a key that does not end in a value edge: a set is stored exactly when no iterator is open and `o` is given for a stored key or `c` for a new one; it then writes that value and no other; otherwise nothing changes and the exception is the one for an open iterator, for missing flags, or the general one |
| TrieOps.GetFinds | survival_kit/trie.c:523-547 | in words: such a get finds a value exactly when the key is stored with it |
| TrieOps.SetRefines | survival_kit/trie.c:950-1045 | the pairs and the answer after any case-sensitive set are those of a map update at the key acted on |
| TrieOps.GetRefines | survival_kit/trie.c:523-547 | a case-sensitive get is a map lookup at the key acted on |
| TrieOps.SetInv | survival_kit/trie.c:950-1045 | any set, case-sensitive or not, keeps the tree well formed, `length` equal to the number of keys and the key buffer as long as the longest key; the branch for an impossible lookup result is never taken |
| TrieOps.TargetExact | survival_kit/trie.c:170-183 | which key a case-sensitive call acts on: the key itself, except for a search that ends inside a value edge, when it is a shorter stored key and the key itself is not stored |
| TrieOps.StopsMeans | survival_kit/trie.c:170-183 | the failure condition on the stored tree alone: a case-sensitive search ends inside a value edge if and only if some node holds a value and the key ends strictly inside the edge that leaves it |
| TrieOps.NoPrefixClear | survival_kit/trie.c:170-183 | with or without case, no search ends inside a value edge for a key that has no stored key as a proper prefix |
| TrieOps.InsertCorrect | survival_kit/trie.c:926-946 | splitting at the place of any search that found no match gives a well-formed tree that denotes the old map with exactly one new key |
| TrieOps.NewKeySpells | survival_kit/trie.c:1006-1040 | the key created is the bytes on the existing path followed by the rest of the given key; case-sensitively it is the given key |
| TrieShape.InsertAtCorrect | survival_kit/trie.c:687-946 | adding the rest of a key below a node, as a value, an edge, one more child or a table, changes the map at that key alone |
| TrieShape.AddKidWF | survival_kit/trie.c:687-946 | adding a chain of edges below a node keeps every leaf valued, edges of 1 to 12 bytes, and sibling bytes distinct |
| TrieShape.AddKidDenotes | survival_kit/trie.c:687-946 | adding a chain of edges below a node adds exactly the new key to the map |
| TrieShape.SplitLineWF | survival_kit/trie.c:811-922 | cutting an edge in two leaves the map unchanged |
| TrieShape.ChainVals | survival_kit/trie.c:607-674 | a chain of 12-byte edges of any length holds one key, the whole string |
| TrieShape.ChainCuts | survival_kit/trie.c:607-638 | a string is cut into edges of 12 bytes from its start, the last one holding the rest |
| TrieShape.LayoutSizes | survival_kit/trie.h:20-37 | an edge holds 1 to 12 bytes, an array node 2 to 12 children, a table 13 or more |
| TrieShape.SetValCorrect | survival_kit/trie.c:1005-1008 | replacing or giving a value to a node is a map update at its path |
| TrieLookup.FindCorrect | survival_kit/trie.c:201-442 | a search ends at a place of the tree that spells the query up to its position (byte for byte when case-sensitive), at an exact match or stopped, and no node of the tree shares a longer prefix with the query |
| TrieLookup.WalkCorrect | survival_kit/trie.c:407-442 | the loop of the case-sensitive search: the position never falls back and the stop is the deepest |
| TrieLookup.WalkFoldCorrect | survival_kit/trie.c:345-403 | the backtracking of the case-insensitive search: the place returned is the deepest, whatever decoy branches there are |
| TrieLookup.NextOk | survival_kit/trie.c:201-329 | one step moves to a child and strictly forward, or stops |
| TrieFold.LongestMatch | survival_kit/trie.c:201-442 | the position reported is the length of the longest prefix that the query shares with a stored key, and some stored key attains it |
| TrieFold.FoldReports | survival_kit/trie.c:345-403 | the case-insensitive find reports a match if and only if some stored key equals the query up to case or the query ends, up to case, strictly inside an edge that leaves a node with a value |
| TrieFold.FoldMeets | survival_kit/trie.c:345-403 | below any node above one that the match tests take for the query, the backtracking reports a match, and none that comes after that node in the order of keys |
| TrieFold.FoldFinds | survival_kit/trie.c:345-403 | which match it reports, whatever branches the trie has: the first, in the order of keys, of the stored nodes that the match tests take for the query, and nothing if there is none |
| TrieFold.GiveUpMeansAbsent | survival_kit/trie.c:373-403 | when the backtracking gives up, no stored key equals the query up to case |
| TrieFold.FoldAnswers | survival_kit/trie.c:523-547 | a case-insensitive get answers with the value of a stored key equal to the query up to case, or with nothing when there is none, if and only if the first stored node that the match tests take for the query is not one in whose edge the query ends; a condition on the stored tree, for any tree |
| TrieFold.FoldAnswersExactly | survival_kit/trie.c:523-547 | where every path is written in one way, that is so if and only if the query does not end, up to case, inside any edge that leaves a node with a value |
| TrieFold.FoldRunSpelling | survival_kit/trie.c:950-1045 | a trie filled by any run of sets with `i` writes every path in one way |
| TrieFold.FoldSet | survival_kit/trie.c:1006-1040 | what any set with `i` does: it is refused; or it finds a stored key, whose value alone changes if `o` allows it; or it adds one key if `c` allows it, the path bytes followed by the rest of the given key, equal to the given key up to case and to no stored key; with the reply that goes with each |
| TrieFold.FoldSetDoes | survival_kit/trie.h:130-155 | in words, where the first node taken for the key is not one in whose edge it ends: a set with `i` writes the value of one stored key equal to the given one up to case if `o` is given, or of one new such key if there is none and `c` is given, and no other; otherwise nothing changes and the exception is the one that fits |
| TrieFold.FoldRunNoTwins | survival_kit/trie.c:950-1045 | a trie filled by any run of sets with `i` never holds two keys equal up to case |
| TrieFoldRuns.FoldRunMeetsMap | survival_kit/trie.c:523-1045 | over a whole run of gets and sets with `i`, from any trie that such runs lead to, every answer and the stored pairs with their keys in lower case are those of a finite map given the same calls in lower case, if and only if no call of the run, except sets refused outright, has a key that ends inside a value edge up to case |
| TrieFoldRuns.FoldRunFromEmpty | survival_kit/trie.c:483-1045 | the same for every run that starts from the empty trie |
| TrieFoldRuns.FoldGetDiffers | survival_kit/trie.c:170-178 | the failing family is not empty with `i` either: a get of `ab` finds the value of the empty key although no stored key equals `ab` up to case |
| TrieText.FindText | survival_kit/trie.c:201-442 | what a search leaves in the key buffer: as many bytes as it followed, equal to the query up to case, and on a match the text that is returned |
| TrieText.FoldText | survival_kit/trie.c:345-403 | on a match found by backtracking the branch that found it wrote last: the text is the path of the match, with the byte of the query behind every table |
| TrieText.TextIsKey | survival_kit/trie.c:296-325 | the text of a case-insensitive match is the key that was found if and only if the query does not end inside an edge and has the byte of that key behind every table on the way |
| TrieText.TableTextDiffers | survival_kit/trie.c:311-325 | the failing family is not empty: in a table of the keys `A` to `M`, asking for `a` with `i` finds `A` and returns the text `a` |
| TrieText.RestAnswers | survival_kit/trie.c:1009-1040 | on no match the text followed and the rest of the key equal the key, up to case with `i` |
| TrieNodes.InsertNon0Str | survival_kit/trie.c:607-638 | in place: new nodes for a string of any length, 12 bytes an edge, ending at the given tail |
| TrieNodes.FinishTail | survival_kit/trie.c:642-674 | in place: a node becomes the start of a chain that spells the string and holds the value at its end |
| TrieNodes.SplitTableNode | survival_kit/trie.c:687-705 | in place: one more table entry; the nodes then represent the tree with the key added, and no other node object changed |
| TrieNodes.SplitMultiToTable | survival_kit/trie.c:709-769 | in place: twelve children are copied into table entries and a thirteenth is added; the nodes represent the tree with the key added although the children have moved |
| TrieNodes.SplitMultiNode | survival_kit/trie.c:773-807 | in place: one more byte and child in the arrays |
| TrieNodes.SplitThreeWay | survival_kit/trie.c:811-922 | in place: an edge whose first byte differs becomes a two-way node |
| TrieNodes.CutLine | survival_kit/trie.c:811-922 | in place: an edge is cut after its common prefix |
| TrieNodes.SplitNode | survival_kit/trie.c:926-946 | in place: all five splits together represent the tree with the key added; existing objects other than the node that was split are untouched |
| TrieNodes.FieldsFit | survival_kit/trie.h:25-37 | the counters of a node fit their 16 and 8 bits, and a node never holds more than 12 bytes |
| TrieHeap.Trie.NextNode | survival_kit/trie.c:201-329 | one step of a search over node objects ends where the step over the tree ends, and the bytes matched are in the key buffer |
| TrieHeap.Trie.FindNode | survival_kit/trie.c:345-442 | a search over node objects, by loop or by backtracking, ends where the search over the tree ends; nothing but the key buffer is written, within its length, for a query of any length, and exactly with what the branches tried left there |
| TrieHeap.Trie.Get | survival_kit/trie.c:523-547 | the get over node objects gives the answer of the tree and changes only the key buffer; the returned text is the key, with `i` the path of the match with the byte of the query behind every table |
| TrieHeap.Trie.Set | survival_kit/trie.c:950-1045 | the set over node objects leaves the state and the answer of the tree; the returned text is the key, with `i` the text of the match as for a get, or one equal to the key up to case when a key is created; while an iterator is open nothing at all is written |
| TrieHeap.Trie.constructor | survival_kit/trie.c:483-489 | a new trie is valid and empty |
| KeyOrder.CompareDecides | survival_kit/string.c:1413-1455 | the sign of the case-sensitive comparison decides the lexicographic order of unsigned bytes, and 0 decides equality |
| KeyOrder.CompareFold | survival_kit/string.c:1413-1455 | the sign of the case-insensitive comparison is that of the lexicographic order of the keys in lower case, and 0 means equal up to case |
| KeyOrder.CommonPrefix | survival_kit/string.c:1357-1376 | the loop returns the longest common prefix up to case sensitivity |
| KeyOrder.LexTransitive | survival_kit/string.c:1413-1455 | the order is transitive |
| Bytes.SameUpToCase | survival_kit/string.c:1226-1343 | equal up to case are equal bytes and the capital and small forms of the letters A (65) to Z (90), and these are exactly the two letters that the search tries for a byte |
| Bytes.Letters | survival_kit/string.c:1226-1290 | the small form of a byte is no capital letter, the capital form no small one, and both equal it up to case |
| Bytes.LowerSame | survival_kit/string.c:1332-1343 | keys are equal up to case exactly when their lower-case forms are equal |
| TrieCursor.Yield | survival_kit/trie.c:1644-1664 | the key of the node just entered comes before every key still to come, and reporting it takes out just that key |
| TrieCursor.MovesProgress | survival_kit/trie.c:1666-1771 | each move down an edge or on to the next edge byte keeps the set of keys still to come and makes the measure of the recursion smaller |
| TrieCursor.PopProgress | survival_kit/trie.c:1666-1674 | leaving an exhausted node keeps the set of keys still to come and makes the measure smaller |
| TrieCursor.StartUnder | survival_kit/trie.c:1547-1588 | the keys below the starting node are exactly the stored keys that begin with the prefix, also when the prefix ends inside an edge |
| TrieCursor.NothingUnder | survival_kit/trie.c:1551-1556 | a prefix that the search cannot follow begins no stored key |
| TrieIter.Iter.NextKey | survival_kit/trie.c:1620-1775 | one call reports the least key still to come, with its value, or the end when there is none, and then the end for ever; its recursion decreases a measure and all writes stay within the frames and the key buffer |
| TrieIter.Iter.Next | survival_kit/trie.c:1620-1775 | the same in a valid trie, which is not touched; the iterator stays valid |
| TrieIter.Iter.Push | survival_kit/trie.c:1486-1499 | a push fits into the frames and leaves the lower frames alone |
| TrieIter.ScanMulti | survival_kit/trie.c:1695-1711 | the scan of the byte array finds the current byte and the next larger one |
| TrieIter.ScanTable | survival_kit/trie.c:1741-1756 | the scan of the table finds the next used entry |
| TrieIter.Open | survival_kit/trie.c:1535-1591 | a new iterator has exactly the stored keys beginning with the prefix to report; its frames are one for each byte a key can have beyond the prefix, and one more |
| TrieIter.NewIter | survival_kit/trie.c:1509-1591 | with `c` or `o` the call is refused and nothing is counted; otherwise the count of open iterators goes up by one |
| TrieIter.Iter.Free | survival_kit/trie.c:1595-1616 | the count goes down by one; a second free throws and changes nothing |
| TrieIter.Iter.Survives | survival_kit/trie.c:1547-1616 | whatever keeps the tree, its nodes and the key buffer object leaves a live iterator and its keys to come alone |
| TrieIter.Drain | survival_kit/trie.h:204-231 | the loop that callers write ends and sees every key beginning with the prefix once, in strictly ascending order, with its value |
| TrieSessions.IteratorsSeeTheirMap | survival_kit/trie.c:960-967 | in any interleaving of gets, attempted sets and several iterators, an iterator that is not freed has reported, in order, the least keys of the map as it was when the iterator was made, and that is still the map |
| TrieSessions.EndMeansAll | survival_kit/trie.c:1620-1641 | in any interleaving an iterator reports the end exactly when it has reported every key that began with its prefix when it was made |
| TrieSessions.SetsRefused | survival_kit/trie.c:960-967 | after any run, while an iterator is open every set is refused whatever its flags |
| TrieSessions.StartSound | survival_kit/trie.c:483-489 | an empty trie, and any trie without iterators, is a world to which the theorems on interleavings apply |
| TrieSessions.StepSound | survival_kit/trie.c:1547-1616 | each call keeps the count of open iterators right and every open iterator true to its map |
| TrieClients.Client.Do | survival_kit/trie.c:523-1775 | a call of get, set, iterator creation, iteration or freeing on a real trie with any number of live iterators is a step of the sessions above: in particular no call disturbs another iterator, whose frames and key buffer are its own |
| TrieClients.Client.GetKey | survival_kit/trie.c:523-547 | a get on the node objects leaves every iterator with the keys it had to report |
| TrieClients.Client.SetKey | survival_kit/trie.c:950-1045 | a set on the node objects changes nothing while an iterator is open |
| TrieClients.Client.OpenIter | survival_kit/trie.c:1509-1592 | a new iterator joins the others without a frame stack or a key buffer in common |
| TrieClients.Client.NextKey | survival_kit/trie.c:1620-1775 | one iterator moves on and the others stay |
| TrieClients.Client.FreeIter | survival_kit/trie.c:1595-1616 | one iterator goes and the count of open ones goes down |
| TrieClients.Client.DoAll | survival_kit/trie.c:523-1775 | any sequence of calls on the objects is a run of the sessions, so that the theorems on runs speak of the code |
| TrieClients.Client.Watch | survival_kit/trie.c:960-967 | an iterator made on a real trie, followed by any calls that do not free it: what it has reported and what it has left to report are the keys with its prefix at the time it was made, and the trie holds the same map |
| JumpStacks.JmpFStack.Set | survival_kit/templates/fstack.c:74-91 | a jump point is put on a stack of linked nodes; the node it gets is told for good by the number of nodes below it in stack order |
| JumpStacks.JmpFStack.Pop | survival_kit/templates/fstack.c:93-101 | the top jump point is removed and no node changes its place in the order of all nodes |
| JumpStacks.JmpFStack.Write | survival_kit/feature_emulation/scope.h:328-329 | writing through a pointer to a node overwrites the jump point with as many others below it, and none if the node has been popped since |
| JumpStacks.JmpFStack.CutTo | survival_kit/feature_emulation/thread_context.c:53-66 | popping in a loop leaves the given number of jump points |
| JumpMacros.ViewGrows | survival_kit/feature_emulation/scope.h:169-170 | the exit slot that a function holds as a pointer keeps its place in the scope jump stack when new nodes come in |
| JumpMacros.ThreadContext.Catch | survival_kit/feature_emulation/try_catch.h:206-233 | the chain of clauses, as a loop over the tests |
| JumpMacros.ThreadContext.FirstGuard | survival_kit/feature_emulation/scope.h:148-176 | the node taken for the exit slot stands for the height of the scope jump stack at that moment |
| JumpMacros.ThreadContext.ScanGuards | survival_kit/feature_emulation/scope.h:322-344 | the write through `scope_fn_exit` is an overwriting of the slot that had as many jump points below it when the first guard was reached, whatever has happened to the nodes since |
| JumpMacros.ThreadContext.ReconcileStacks | survival_kit/feature_emulation/thread_context.c:51-74 | the loops that pop surplus nodes cut the three stacks to the saved lengths, or the process ends when one is shorter |
| JumpMacros.ThreadContext.Execute | survival_kit/feature_emulation/try_catch.h:119-299 | the macros over free-stacks of linked nodes refine the machine over values: after n macro steps the nodes and pointers stand for what n machine steps lead to, and the stacks still share no memory |
| JumpProof.RunStmt | survival_kit/feature_emulation/try_catch.h:119-299 | any statement at any nesting, of blocks, clauses, calls and guards, ends as structured exception handling says: normally, with every jump stack, local and exception instance as before and exactly the events it should have; or with the exception on the instance stack, propagated by this function or just arrived at the innermost jump point, and all jump stacks at their starting lengths |
| JumpProof.RunTry | survival_kit/feature_emulation/try_catch.h:119-299 | an sTRY block with its clauses, among them the throw inside a clause, which leaves the whole block |
| JumpProof.RunClauses | survival_kit/feature_emulation/try_catch.h:206-245 | the first clause that matches runs; what its handler throws is not offered to the others |
| JumpProof.RunBody | survival_kit/feature_emulation/scope.h:146-354 | a block with guards: on its end, on sRETURN, on a throw and on an exception from a callee, traced or not, the guards reached run as they should and the scope and exc stacks return to their lengths before the first guard |
| JumpProof.RunGuardFits | survival_kit/feature_emulation/scope.h:176-190 | on the machine, a block that starts with a guard ends with the events of that guard exactly if it is for success and the rest ends normally, for failure and the rest raises, or for any exit |
| JumpProof.RunScan | survival_kit/feature_emulation/scope.h:322-344 | one scan runs the guards from the last to the first and removes all slots of the function |
| JumpProof.RunGuards | survival_kit/feature_emulation/scope.h:176-214 | the jumps from guard to guard and back to the scan |
| JumpProof.RunCall | survival_kit/feature_emulation/trace.h:17-63 | calls with and without sTRACE; the stack lengths that sTRACE restores already have their saved values |
| JumpProof.ProgramMeaning | survival_kit/feature_emulation/init.h:13-38 | a program ends with exactly the events that structured exceptions and scope guards give it and with its jump stacks at their starting lengths, an uncaught exception ending the process after all guards have run, if and only if its main function does not break, that is, comes to no guard, end of a block, sRETURN or exception of its own after an earlier sSCOPE block in which it reached a guard |
| JumpProof.FunctionsSound | survival_kit/feature_emulation/scope.h:146-354 | a function, any sequence of statements and sSCOPE blocks, ends as it should from every place where it can be called, with the guards it reached run once and the jump stacks of its callers untouched, if and only if it does not break |
| JumpProof.RunFn | survival_kit/feature_emulation/scope.h:146-354 | a function that does not break, from any point of it on |
| JumpProof.RunLater | survival_kit/feature_emulation/scope.h:146-214 | what a later block does in which a guard is reached, on every way out: a scan skips its first guard and takes a jump point of the callers, and an exception of a callee without sTRACE leaves all its guards behind |
| JumpProof.SecondBlock | survival_kit/feature_emulation/scope.h:148-184 | a second block whose first statement is a guard: when the block ends that guard has been skipped and the innermost exc jump point of the callers is gone |
| JumpProof.SecondGuardSkipped | survival_kit/feature_emulation/scope.h:148-184 | two blocks with one guard each should give events 1 and 2 and give only 1, from wherever the function is called |
| JumpProof.ScanAgainDies | survival_kit/feature_emulation/scope.h:322-344 | a second scan without a guard in between pops jump points of the callers, and unless a caller is running its guards it comes to a jump point that was never set, which the model takes for the end of the process; in C the jump is undefined |
| JumpProof.StolenCallDies | survival_kit/feature_emulation/trace.h:17-63 | a traced call of a function with two blocks that reach guards ends the process on its return, although every statement ended normally: the second block takes the jump point of the call away, and the stack lengths found are not those saved |
| JumpProof.ThrowBehindBlockDies | survival_kit/feature_emulation/scope.h:75-85 | a concrete program: an exception thrown behind a block with a guard jumps to a jump point that was never set, here the end of the process, although the caller has a clause for it |
| JumpProof.GuardThrowDies | survival_kit/feature_emulation/scope.h:192-214 | any block in which a guard that was reached and fits the way out raises ends the process, whoever would have caught the exception; the events are those of the block, of the guards after that one and of its own, and, if the function itself propagates the exception, of the guards before it in a scan inside the scan, where more of them may raise |
| JumpProof.ScanDies | survival_kit/feature_emulation/scope.h:322-344 | the same from any point of a scan, also one inside another |
| JumpMeaning.GuardsRunOnce | survival_kit/feature_emulation/scope.h:176-214 | on any exit every guard that was reached and whose mask fits runs exactly once, in reverse order, after the statements |
| JumpMeaning.GuardFits | survival_kit/feature_emulation/scope.h:118-121 | which guard runs on which exit: one for success exactly if what follows it in the block ends normally, one for failure exactly if it raises, any other always; no other event is added |
| JumpMeaning.StoryMeans | survival_kit/feature_emulation/try_catch.h:119-245 | a concrete function with guards for every exit, called with sTRACE in a block with three clauses, of which the second catches and throws again: its events and its exception |
| JumpMeaning.LostMeans | survival_kit/feature_emulation/try_catch.h:119-245 | another concrete function, which ends normally and runs its guard for success alone, and an exception that no clause catches |
| JumpProof.StoriesRun | survival_kit/feature_emulation/try_catch.h:119-299 | the machine tells both stories from wherever it starts |
| CatchOrder.FirstAncestorCatches | survival_kit/feature_emulation/try_catch.h:206-245 | with a root at index 0 the clause that runs is the first whose code is an ancestor of the thrown code, and the exception leaves the block if there is none |
| Inheritance.IsADecides | survival_kit/inheritance_table.c:163-186 | the loop decides the ancestor relation of a forest if and only if index 0 is a root |
| Inheritance.ClimbDecides | survival_kit/inheritance_table.c:163-186 | from any state of the loop that is sound, the answer is the ancestor relation |
| Inheritance.Table.IsA | survival_kit/inheritance_table.c:163-186 | on a forest the loop ends and gives that answer |
| Inheritance.Table.Register | survival_kit/inheritance_table.c:83-159 | registration in any order keeps identifiers and table in step; an unknown parent becomes a root first; nothing else moves; and a forest stays a forest if and only if a registered parent is not below the registered child |
| Inheritance.ReparentForest | survival_kit/inheritance_table.c:130-134 | a new parent keeps a forest if and only if it is not below the child |
| PegMacros.Parser.Exec | survival_kit/parsing/peg_macros.h:80-284 | executing any expression with the macros gives the match, the error message and the sequence of callbacks that its outcome says |
| PegMacros.Parser.ExecSeq | survival_kit/parsing/peg_macros.h:80-96 | SEQ2 |
| PegMacros.Parser.ExecChoose | survival_kit/parsing/peg_macros.h:156-205 | CHOOSE2: the callback between the alternatives, the restored cursor, and the choice of the error that reached farther |
| PegMacros.Parser.ExecMany | survival_kit/parsing/peg_macros.h:109-127 | ZERO_OR_MORE: the loop, its stored cursor and its single callback at the end |
| PegMacros.Parser.RepeatAll | survival_kit/parsing/peg_macros.h:109-122 | the loop has an end, or a body that does not advance has none |
| PegMacros.Parser.ExecOptional | survival_kit/parsing/peg_macros.h:220-233 | OPTIONAL |
| PegMacros.Parser.ExecNot | survival_kit/parsing/peg_macros.h:266-284 | NEG_LOOKAHEAD: always discards, and reports the element found as the error |
| PegMacros.Parser.CallRule | survival_kit/parsing/peg_macros.h:253-261 | a rule has a cursor of its own |
| PegTheorems.RunMeans | survival_kit/parsing/peg_macros.h:80-284 | success and end position are those of a parsing expression grammar with whitespace skipping, whatever the macros leave in their variables on the way |
| PegCalls.SequenceMatches | survival_kit/parsing/peg_macros.h:80-96 | the second element of a sequence starts behind the whitespace if the rule consumes it, and right behind the first element if not |
| PegCalls.RoundMatches | survival_kit/parsing/peg_macros.h:109-127 | the next round of a repetition starts behind the whitespace or right behind the element in the same way, and a body that fails ends the repetition where it was |
| PegCalls.TokensApart | survival_kit/parsing/peg_macros.h:86-88 | two tokens with whitespace between them match in a rule that consumes whitespace and fail in one that does not, in meaning and in what the macros produce |
| PegCalls.TokensTogether | survival_kit/parsing/peg_macros.h:86-88 | tokens next to each other match in both |
| PegCalls.SequenceCalls | survival_kit/parsing/peg_macros.h:80-96 | SEQ2 makes the calls of its first element and then those of its second; a match begins at the cursor of the rule |
| PegCalls.ActionCalls | survival_kit/parsing/peg_macros.h:247-251 | ACTION calls the user with the text from the start of the rule to the position |
| PegCalls.RuleCalls | survival_kit/parsing/peg_macros.h:253-261 | a rule runs its body with the position as its cursor and with its own whitespace |
| PegCalls.OptionalCalls | survival_kit/parsing/peg_macros.h:220-233 | OPTIONAL matches what its element matches; an element that fails is discarded at the position, and nothing is matched |
| PegCalls.LookaheadCalls | survival_kit/parsing/peg_macros.h:266-284 | NEG_LOOKAHEAD discards what its element did in either case, matches nothing, and fails exactly when the element matches |
| PegCalls.RepetitionCalls | survival_kit/parsing/peg_macros.h:109-127 | a repetition that ends has made rounds, each moving on and starting where the one before ended, up to a position where the body fails; its calls are theirs in order, those of the failed body, and one discard |
| PegTheorems.OneOrMoreMeans | survival_kit/parsing/peg_macros.h:141-150 | ONE_OR_MORE matches what ZERO_OR_MORE matches, fails where its body does, and has no end where a body matches without advancing |
| PegTheorems.SeqShape | survival_kit/parsing/peg_macros.h:98-105 | any expansion of a sequence into pairs has the match, the callbacks and the error of the flat sequence |
| PegTheorems.ChooseShape | survival_kit/parsing/peg_macros.h:209-216 | any expansion of a choice into pairs is the flat ordered choice, in match, callbacks and error |
| PegTheorems.MacrosAreFlat | survival_kit/parsing/peg_macros.h:80-216 | SEQ2 to SEQ10 and CHOOSE2 to CHOOSE10 with the trees that the macros build |
| PegTheorems.MacroTrees | survival_kit/parsing/peg_macros.h:98-105 | where those macros cut their arguments: in the middle, an odd one to the left, except that of three one is on the left |
| PegTheorems.BalancedLeaves | survival_kit/parsing/peg_macros.h:98-105 | those trees have the arguments as their leaves, in order |
| PegTheorems.FirstMatch | survival_kit/parsing/peg_macros.h:156-216 | a choice gives the outcome of its first alternative that matches, after one discard for each failed alternative before it |
| PegTheorems.FarthestFailure | survival_kit/parsing/peg_macros.h:156-216 | a choice that fails reports the failure that reached farthest, of equally far ones the latest, with one discard after each alternative but the last |
| PegTheorems.ParsingEnds | survival_kit/parsing/peg_macros.h:80-284 | parsing ends, within the text, when every repeated body advances and no rule comes back to itself without consuming text, with a depth of rule calls linear in the rest of the text |
| PegLookup.LookupSelects | survival_kit/parsing/peg_lookup.h:149-228 | for a case-sensitive parser the trie and the suffix table select the choice and suffix that comparing the word with every keyword selects, if and only if the word does not end inside an edge that leaves a keyword |
| PegLookup.FoldSelects | survival_kit/parsing/peg_lookup.h:171-228 | for a parser without case the trie and the suffix table select a keyword that equals the word up to case, with its suffix, or none if there is none, if and only if the first stored node that is taken for the word is not one in whose edge the word ends |
| PegLookup.SuffixPlaces | survival_kit/parsing/peg_lookup.h:90-114 | the value of a keyword is the number of keywords before it in the list, and its suffix the number of suffix marks before it |
| PegLookup.NextKeyword | survival_kit/parsing/peg_lookup.h:149-169 | filling the index throws at a keyword exactly when it ends inside an edge that leaves an earlier keyword |
| PegLookup.WrongKeyword | survival_kit/parsing/peg_lookup.h:171-228 | the failing family is not empty: `abcd` and `ab` are filled in without an exception and the word `abc`, which is neither, selects `ab` |
| PegLookup.ThirdKeywordThrows | survival_kit/parsing/peg_lookup.h:149-169 | `abcd`, `ab` and `abc` cannot be filled in although they differ: the third throws |
| PegLookup.NoPrefixFills | survival_kit/parsing/peg_lookup.h:149-169 | a list of keywords of which none is a proper prefix of a later one is filled in without an exception |
| PegLookup.NoPrefixSelects | survival_kit/parsing/peg_lookup.h:171-228 | a word that has no keyword as a proper prefix is looked up right |
| PegLookup.FilledHolds | survival_kit/parsing/peg_lookup.h:149-169 | an index that was filled maps each keyword to its place and holds nothing else |
| PegLookup.AnyWord | survival_kit/parsing/peg.c:477-524 | the loop finds the longest word at the cursor, preceded by no word character, or there is none |
| PegLookup.WordIsLongest | survival_kit/parsing/peg.c:477-524 | the word is the longest stretch of word bytes around the cursor, and starts there |
| PegLookup.Index.Fill | survival_kit/parsing/peg_lookup.h:149-169 | the lazy filling, entry by entry, with the suffix table beside the trie, which is left valid |
| PegLookup.Index.Lookup | survival_kit/parsing/peg_lookup.h:171-228 | the lookup of the word at the cursor in a filled index |
| PegLookup.Index.FillAndLookup | survival_kit/parsing/peg_lookup.h:147-228 | the macro as a whole: it throws if and only if its mutex is held since an earlier filling threw or a keyword cannot be stored; otherwise it gives what comparing the word with every keyword gives if and only if the word does not end inside an edge that leaves a keyword, and without case a right answer up to case under the condition of `FoldSelects` |
| ArrayFilter.Filter | survival_kit/templates/array.c:241-294 | the slice is left with exactly the passing elements in their order, the rejects stand just after it, the rest of the buffer is unchanged, the whole is a permutation, and the predicate is called at most four times per element |
| ArrayFilter.KeptInOrder | survival_kit/templates/array.c:241-294 | the filter is stable: each passing element comes to the place that is the number of passing elements before it, and nothing else is kept |
| ArrayFilter.Round | survival_kit/templates/array.c:258-290 | one round of the outer loop; the leading index never moves back |
| ArrayFilter.Filling | survival_kit/templates/array.c:262-286 | filling a hole with the next passing element keeps the order of what remains |
| FreeStack.Stack.Push | survival_kit/templates/stack.c:44-60 | a pushed node becomes the front |
| FreeStack.Stack.Append | survival_kit/templates/stack.c:62-79 | an appended node becomes the back |
| FreeStack.Stack.Pop | survival_kit/templates/stack.c:81-109 | the front node is removed, or the pop of an empty stack is out of bounds |
| FreeStack.Stack.Walk | survival_kit/templates/stack.c:153-192 | a walk hands over the nodes from start to the first that stops it |
| FreeStack.WalkedFrom | survival_kit/templates/stack.c:153-192 | a walk from a node goes along the nodes from there on, unless it meets the end first and visits nothing |
| FreeStack.WalkedUpTo | survival_kit/templates/stack.c:153-192 | a walk visits the nodes up to the first that stops it or is the end, and that one too |
| FreeStack.Stack.Reverse | survival_kit/templates/stack.c:194-226 | relinking in place gives the reversed list of nodes, with back and length right |
| FreeStack.FStack.Grow | survival_kit/templates/fstack.c:42-47 | a node given to the stack joins the unused ones, next to the used ones in the order |
| FreeStack.FStack.Push | survival_kit/templates/fstack.c:56-72 | the reversed unused nodes followed by the used ones are the same sequence before and after |
| FreeStack.FStack.Alloc | survival_kit/templates/fstack.c:74-91 | the sequence is unchanged, or gains one node at the front when no free node is left |
| FreeStack.FStack.Pop | survival_kit/templates/fstack.c:93-101 | the sequence is unchanged |
| FreeStack.FStack.Walk | survival_kit/templates/fstack.c:103-189 | which nodes a walk visits, with the reversing buffer of one place per unused node |
| FreeStack.FullWalk | survival_kit/templates/fstack.c:103-189 | a full walk from NULL visits exactly that sequence |
| FreeStack.UsedStart | survival_kit/templates/fstack.c:172-183 | a walk that should start at a used node starts there if and only if it is the top one |
| Loaf.Loaf.Resize | survival_kit/string.c:448-492 | the bytes that both lengths have are kept wherever the storage moves, and a NUL follows them |
| Loaf.Loaf.BufferedResize | survival_kit/string.c:584-619 | capacity grows to half as much again as is needed, and growth is paid for |
| Loaf.Loaf.BufferedAppend | survival_kit/string.c:636-654 | the slice reads its old bytes and then the suffix, and every slice taken earlier reads the same bytes outside of those written |
| Loaf.AppendRun | survival_kit/string.c:304-321 | over any sequence of buffered appends to any slices of a buffer, with suffixes from elsewhere or from the buffer itself, every byte outside of all ranges written reads as before wherever the storage has moved, and all growth together copies at most twice the final capacity |
| Loaf.AppendAll | survival_kit/string.c:584-654 | building a text: the slice that the pieces are appended to reads all of them, and every byte outside of those written reads as before |
| Loaf.SliceOfReads | survival_kit/string.c:984-1016 | a slice of a slice, with negative and open indices, reads what slicing the bytes gives; with bounds outside of the slice it reads on in the storage |
| Loaf.SliceFromEnds | survival_kit/string.c:984-1016 | indices from the front count from 0, negative ones from the end, so that -k leaves or takes the last k bytes, and SKIT_EOT is the end |

## Left out

- TrieHeap.Trie.Set: when a set with `i` creates a key, the returned text is only said to equal the key up to case; which case each byte has depends on the branches that the search gave up (`AfterFind`).
- TrieIter.NewIter: asks its caller not to pass `i`, with which the source ends the process.
- TrieIter.Next is defined for iterators that are not freed; the source gives no meaning to others. The key it returns is a value, not a slice of the buffer that the next call overwrites.
- JumpProof.RunStmt: covers statements in which no guard that runs is left by an exception and no function that runs breaks; for the first `GuardThrowDies`, and for the second `RunLater`, `ScanAgainDies` and `StolenCallDies`, say what happens.
- JumpProof.FunctionsSound: takes the functions that the function calls to be sound themselves; what a broken callee leaves behind for its callers is `RunLater`, `ScanAgainDies` and `StolenCallDies`.
- JumpProof.GuardThrowDies: is about callers that are not running guards themselves.
- JumpProof.ScanAgainDies: a jump point that was never set ends the process in the model. In C a node that was used before holds a stale `jmp_buf`, and a jump through it is undefined.
- Guards defined inside an `sTRY` block, `sRETURN` and `goto` out of one, and nested sTRACE: the library forbids them.
- `break` and `continue` out of an `sTRY` block: forbidden too; the code answers with an exception of its own, thrown while the nesting level is still one too high.
- PegMacros.Parser.RepeatAll: a body that matches without advancing makes the C loop run for ever; here the loop is left with the answer that it has no end. The depth parameter stands for the room on the C stack.
- TrieHeap.Trie.GrowBuffer: a longer key buffer is a new array, and slices into the old one are not followed.
- Inheritance.Table.IsA: asks for a forest; on a table with a cycle the C loop need not end.
- PegLookup.Index.Lookup: is the part of the macro that runs when the index was filled to the end; `FillAndLookup` is the whole.
- Loaf.Loaf.BufferedAppend: asks that memcpy does not overlap, as C does.
- Pointers stored as values are integers, memory is never short, and the 28-bit length of a slice and the 32-bit count of iterators are unbounded here; the counters of a trie node fit their types (`FieldsFit`).
- Local variables that a longjmp may leave indeterminate keep their last values.
- Mutexes and threads: one thread context, one user of a keyword index, whose mutex is a flag.
- skit_trie_remove, skit_trie_node_fold and skit_trie_enforce_valid_flags: stubs, or a check that never rejects.
- Drawing and dumping of tries, stack-trace texts, error-message formatting, thread creation: they print or plumb.
- Tokens, keywords and word boundaries of peg.c: small functions of the text, which enter as hand-written rules.
- stack_dup and stack_rdup, streams, flags, dates, paths, sockets: they would only add easy members.
