# Ur/Web, modelled and proved

A Dafny model of the parts of Ur/Web whose specification is short and whose code is not, and proofs of
what each is for. `dafny verify dfyconfig.toml` checks all of it.

| files | part of Ur/Web |
|---|---|
| `UrInterp.dfy`, `UrPatterns.dfy`, `SignalClosures.dfy` | the interpreter of Ur code in the browser, an environment and stack machine, equal to a recursive evaluator, and what its patterns mean |
| `Reactive.dfy` | sources, signals and the nodes that depend on them, kept current by `populate` |
| `Sqlcache.dfy` | the cache of query results, with stamps of time and flushes of whole prefixes |
| `UtHash.dfy`, `ListSort.dfy`, `UtHashSort.dfy` | uthash: buckets, doubling, application order, and its mergesort |
| `Untangle.dfy` | `core_untangle`: mutually recursive groups split into components in order |
| `CoreEnv.dfy`, `CoreTree.dfy` | `core_env`: lifting and substitution in three sorts, their laws and what they do to free variables |
| `Uncurry.dfy`, `StructTable.dfy`, `StructFields.dfy` | `cjrize`: functions of several arguments, the numbering of record types, and the structs declared |
| `CheckNest.dfy` | `checknest`: queries that may run inside themselves |
| `FormInput.dfy` | the tree of form inputs in an array that moves, and the readers of it |
| `Utf8.dfy`, `Urlify.dfy` | strings as bytes and as UTF-16, and strings in URLs |
| `MessageText.dfy`, `ServerMessages.dfy`, `BrowserChannels.dfy`, `MessageDelivery.dfy` | messages from the server to the channels of a page |
| `Commit.dfy`, `CommitOrder.dfy` | the end of a transaction: what is run, and what happens how often and in which order |
| `FastCgi.dfy` | records and name-value pairs of FastCGI 1.0, sections 3.3 and 3.4 |

How the parts are modelled:

- What the source updates in place is a class (`Cache`, `Page`, `HashTable`, `Context`, `Server`, `Queue`, `Input`,
  ...), or a method with a loop; what it computes is a function. The contract of a method equates what it
  returns, or the new state, with a function of the old one, and the lemmas are about that function.
- Outcomes of code outside the model are parameters: where `realloc` puts an array (`FormInput.Context.place`), how
  `recv` splits a stream (`FastCgi.Input.pick`), which callbacks fail and what the database answers
  (`Commit.Context.fails`, `code`), native functions of the interpreter, the hash function and the comparison of
  uthash, what `sscanf` reads. The theorems hold for all of them.
- `Sqlcache` takes three premises: key components contain no `_` (`EncodeCollides` shows why), the number of items
  does not reach the limit at which entries are evicted, and history is ordered by commits of stores and by
  flushes.

Where the code does something other than its comments or its purpose say:

- `Sqlcache.FlushStoreCommit`, `Sqlcache.StoreFlushCommit`: the comment in `uw_Sqlcache_flush` says that a flush makes
  later stores of its transaction fail. A commit stamps its value anew, so a store of the same transaction, after the
  flush or even before it, is what a later check gets. A store fails exactly when the entry holds a value with a stamp
  no older than its own; so of two stores of the same keys in one transaction the second fails (`Sqlcache.FirstWins`).
- `Sqlcache.FirstStoreMissed`: the declarations that the compiler generates start the clock at zero, and a check
  compares stamps strictly; the first value stored is never found. A check finds a current value if and only if its
  stamp is above zero.
- `Reactive.RemoveTakesOne`: `remove` of an absent element returns the empty list. It does its work if and only if the
  element is there, and `Reactive.Page.Leave` shows that it is at each of its calls.
- `Reactive.StaysBehind`: when a signal throws, its node stays registered where it was, not where that run had read; it
  may then show an old value though the cause has gone away. A node is current if its signal did not throw when it was
  last run, so always if the signal cannot throw (`Reactive.AllUpToDate`).
- `Commit.Context.PushUnlock`: when there is no place to register the transactional of the cache, the failure is
  ignored and no lock is ever let go of. That is the only case: on every path each lock is let go of once if and only
  if the transactional is registered (`Commit.UnlockedExactly`).
- `StructFields.OutOfOrder`: translating a record type sorts its fields before the table numbers it, but a record term
  hands its fields over as they stand, so the struct of a type that is first met in such a term declares them in that
  order. All structs have their fields in order if and only if no record gets its number from a term, or from the
  tables of a query, with the fields out of order (`StructFields.InOrderIffTidy`).
- `Uncurry.PartialApplication`: a partial application has a value in the curried program and none as a C call. A call
  keeps its value if and only if it has as many arguments as the type of the function (`Uncurry.CallExactly`), and
  a program all of whose calls are such keeps its meaning (`Uncurry.SameValue`).

## Model

| member | source | states |
|---|---|---|
| `UrInterp.ExecAgrees` | urweb/lib/js/urweb.js:3093-3290 | on the empty stack the interpreter halts with a value, or throws, exactly when the recursive big-step evaluator does with the same outcome; so each diverges exactly when the other does |
| `UrInterp.ExecOnStack` | urweb/lib/js/urweb.js:3097-3290 | on any stack a run first evaluates its term; with a value it comes back to that very stack, with the environment it began with unless the stack is empty or topped by a restore frame |
| `UrInterp.Forward` | urweb/lib/js/urweb.js:3107-3290 | whatever the evaluator answers within n nested calls, the machine reaches on top of any stack: value, exception, and the environment restored where it must be |
| `UrInterp.Backward` | urweb/lib/js/urweb.js:3107-3290 | a run that halts within k turns is one that the evaluator finishes within 2k calls |
| `UrInterp.StackStaysTight` | urweb/lib/js/urweb.js:3100-3105 | over every run the stack is at most twice its pending frames: calls in tail position leave no restore frames behind |
| `UrInterp.RestoreFramesSparse` | urweb/lib/js/urweb.js:3100-3105 | no two restore frames are adjacent and none is at the bottom, so depth is bounded by pending frames |
| `UrInterp.LookupLoop` | urweb/lib/js/urweb.js:3049-3060 | the loop finds the n-th entry of the environment or throws, as the recursive definition says |
| `UrInterp.ExecPattern` | urweb/lib/js/urweb.js:3062-3091 | matching extends the environment, fails or throws exactly as the recursive definition does, whose meaning is `UrPatterns.MatchMeans` |
| `UrInterp.Exec1` | urweb/lib/js/urweb.js:3097-3290 | the interpreter loop, cut off after a number of turns, computes what the step function does, while it parses named functions in place in their table without changing what a reference means |
| `UrPatterns.MatchMeans` | urweb/lib/js/urweb.js:3062-3091 | a pattern is a list of tests, each at a path into the value: it matches exactly when every test passes, and fails or throws as the first one that does not says; the new indices then lead to the components at the paths of its variables, the last one first, and the old indices are moved up by their number |
| `UrPatterns.LookupIsIndex` | urweb/lib/js/urweb.js:3049-3060 | looking up an index gives the entry at that place of the environment, and throws outside it |
| `UrPatterns.ChooseMeans` | urweb/lib/js/urweb.js:3198-3213 | a match takes the first branch that does not refuse the value, and fails if that one throws or there is none |
| `UrPatterns.PayloadComesBack` | urweb/lib/js/urweb.js:3062-3123 | matching what was injected, or made an option, or bound, gives back the payload; another tag does not match |
| `UrPatterns.FieldComesBack` | urweb/lib/js/urweb.js:3174-3188 | a field of a record just built is the last one given under its name |
| `UrPatterns.RecordNames` | urweb/lib/js/urweb.js:3174-3184 | a record has no names but those of its fields |
| `UrPatterns.LetIsCall` | urweb/lib/js/urweb.js:3193-3197 | a binding does what the call of a function with the bound expression does |
| `SignalClosures.ReturnReports` | urweb/lib/js/urweb.js:1822-1824 | run by the evaluator, the closure of a constant signal reports no sources and its value |
| `SignalClosures.ReadReports` | urweb/lib/js/urweb.js:1817-1821 | the closure of a source signal reports that source alone and what the native reader gives |
| `SignalClosures.BindReports` | urweb/lib/js/urweb.js:1825-1837 | the closure of a bind runs both signals in turn and reports the union of their sources with the second value |
| `SignalClosures.BindRestThrows` | urweb/lib/js/urweb.js:1825-1837 | it throws when its continuation throws, or the signal that comes of it |
| `SignalClosures.SignalRuns` | urweb/lib/js/urweb.js:1817-1837 | the closure of any signal, however it is put together, run by the evaluator, gives the report that the reactive graph takes the signal to mean, or throws where that throws |
| `Reactive.RemoveTakesOne` | urweb/lib/js/urweb.js:1103-1113 | `remove` takes away one occurrence if and only if there is one; of an absent element it returns the empty list, losing every other |
| `Reactive.Remove` | urweb/lib/js/urweb.js:1103-1113 | the loop returns what the recursive definition of that behaviour does |
| `Reactive.Union` | urweb/lib/js/urweb.js:1114-1122 | the loop returns the second list with the elements of the first that it lacks in front |
| `Reactive.UnionedCount` | urweb/lib/js/urweb.js:1114-1122 | how often each element occurs in a union: as in the second list, or as in the first where the second lacks it |
| `Reactive.ReportsOnce` | urweb/lib/js/urweb.js:1817-1837 | a signal reports each source at most once, and only sources of the page |
| `Reactive.UnreportedCannotMatter` | urweb/lib/js/urweb.js:1778-1837 | changing a source that a signal did not report changes neither its value nor its report |
| `Reactive.RelistedCount` | urweb/lib/js/urweb.js:1786-1792 | after both loops of `populate` a node stands once on exactly the lists of the sources it now reports, and every other node as before |
| `Reactive.Page.Leave` | urweb/lib/js/urweb.js:1786-1788 | the loop takes the node off the list of each source that is no longer reported; it is on each of them when it is removed |
| `Reactive.Page.Refresh` | urweb/lib/js/urweb.js:1778-1800 | a refreshed node is registered exactly where it reported and shows the value of its signal in the current store; when the signal throws, its registrations and what it shows stay as they are |
| `Reactive.Page.AddNode` | urweb/lib/js/urweb.js:1951-2087 | creating a node keeps every live node registered, and every one whose signal did not throw when last run current, the new one included |
| `Reactive.Page.Set` | urweb/lib/js/urweb.js:1805-1812 | after a source is set every live node is registered once on each source it last reported, and shows its signal in the new store unless its signal threw when last run; a value that compares as equal changes nothing |
| `Reactive.Page.PopulateAll` | urweb/lib/js/urweb.js:1809-1810 | the loop over the list as it was at its start brings every node on it up to date and leaves the rest so |
| `Reactive.Page.Kill` | urweb/lib/js/urweb.js:1903-1909 | killing a live node takes it off every list and leaves all others registered and current |
| `Reactive.AllUpToDate` | urweb/lib/js/urweb.js:1778-1812 | on a page in any reachable state every live node whose signal cannot throw shows the value of its signal in the current store |
| `Reactive.StaysBehind` | urweb/lib/js/urweb.js:1784-1799 | a node whose signal has thrown is not registered on what that run had read: it can show an old value though its signal has a new one |
| `Sqlcache.EncodeInjective` | urweb/src/c/urweb.c:5088-5110 | key vectors without the separator character have distinct encodings, whatever their lengths |
| `Sqlcache.EncodeCollides` | urweb/src/c/urweb.c:5088-5110 | with the separator allowed, two different key vectors of the same length have the same encoding |
| `Sqlcache.Cache.Check` | urweb/src/c/urweb.c:5112-5153 | a check answers with the value last stored for the keys if no matching flush came later, and never otherwise, except that a value stamped at tick zero is missed |
| `Sqlcache.Cache.Descend` | urweb/src/c/urweb.c:5125-5145 | the loop finds the node of the whole key vector if every prefix has one, with the newest invalidation on the way |
| `Sqlcache.Cache.EnsurePath` | urweb/src/c/urweb.c:5160-5186 | the loop leaves a node at every prefix of the keys, adding blank ones only, and changes no answer |
| `Sqlcache.Cache.StoreCommitOne` | urweb/src/c/urweb.c:5155-5193 | committing a store makes its value the answer for its keys, unless the value last installed for them, and not since deleted, has a stamp that is no older than the one the store was given when it was asked for; no other answer changes |
| `Sqlcache.Transaction.Store` | urweb/src/c/urweb.c:5273-5289 | a store waits at the end of the queue, with the time as it is for its stamp |
| `Sqlcache.Transaction.Commit` | urweb/src/c/urweb.c:5200-5212 | the loop commits what waits in order, each store as the history up to it says |
| `Sqlcache.FirstWins` | urweb/src/c/urweb.c:5187-5191 | of the stores of a transaction for the same keys the first that is not outdone takes effect and the others do not; where all are outdone nothing changes |
| `Sqlcache.Transaction.CommitAndCheck` | urweb/src/c/urweb.c:5112-5212 | what a check finds after a transaction has committed: the value of its first store for the keys that is not outdone, and what was there before if there is none |
| `Sqlcache.StoresCommit` | urweb/src/c/urweb.c:5187-5191 | of any number of stores for the same keys in one transaction the first is what a later check gets |
| `Sqlcache.Cache.Flush` | urweb/src/c/urweb.c:5291-5334 | a flush makes every key vector that its non-null prefix matches unanswered, and no other |
| `Sqlcache.StoredAnswers` | urweb/src/c/urweb.c:5155-5193 | installing a value at the next tick makes the tree answer as the longer history says |
| `Sqlcache.RejectedAnswers` | urweb/src/c/urweb.c:5187-5191 | leaving a newer value in place is what the history says too |
| `Sqlcache.FlushAllAnswers` | urweb/src/c/urweb.c:5310-5314 | stamping the cache invalidates everything, as the history says |
| `Sqlcache.FlushPrefixAnswers` | urweb/src/c/urweb.c:5315-5320 | stamping the node of a prefix, if there is one, is enough for every key vector below it |
| `Sqlcache.FlushLeafAnswers` | urweb/src/c/urweb.c:5327-5331 | dropping one node is what a flush without nulls means |
| `Sqlcache.GrownFaithful` | urweb/src/c/urweb.c:5172-5184 | adding blank nodes keeps every invariant of the tree and every answer |
| `Sqlcache.StoreFlushCommit` | urweb/src/c/urweb.c:5273-5293 | a store queued before a flush of the same transaction is stamped again when it commits, so it is what a later check gets, in any cache |
| `Sqlcache.FlushStoreCommit` | urweb/src/c/urweb.c:5291-5294 | so is a store that comes after the flush of its transaction: it does not fail |
| `Sqlcache.FirstStoreMissed` | urweb/src/lru_cache.sml:71-83 | in a cache as the compiler declares it, whose clock starts at zero, the first value stored is never returned |
| `UtHash.SlotIsRemainder` | urweb/include/urweb/uthash.h:207-210 | with a power of two of buckets the mask gives the remainder of the hash value |
| `UtHash.SlotAfterDoubling` | urweb/include/urweb/uthash.h:680-726 | doubling sends the items of a bucket to it or to its counterpart in the new half |
| `UtHash.IdealLengthIsCeiling` | urweb/include/urweb/uthash.h:660-679 | the shift and the low-bit test give the average chain length rounded up |
| `UtHash.NextInChain` | urweb/include/urweb/uthash.h:611-622 | following a link in a bucket gives the next item of its chain |
| `UtHash.TotalIsCount` | urweb/include/urweb/uthash.h:299-322 | the lengths of the chains of a well-filed table add up to the number of its items |
| `UtHash.ItemCount` | urweb/include/urweb/uthash.h:299-335 | the buckets hold as many items as the application order |
| `UtHash.HashTable.Find` | urweb/include/urweb/uthash.h:103-114 | the item with the key in the application order, or null when there is none |
| `UtHash.HashTable.Add` | urweb/include/urweb/uthash.h:182-205 | an item with a new key becomes the last of the application order and the invariant holds; the buckets are doubled exactly when the one it goes to is too long and doubling is not switched off, and then the multipliers and the count of non-ideal items are what the new chains say and the counters those of one doubling more |
| `UtHash.HashTable.Delete` | urweb/include/urweb/uthash.h:224-257 | the item leaves the application order, its place closed up, and the invariant holds, for the last item too |
| `UtHash.HashTable.Fsck` | urweb/include/urweb/uthash.h:287-336 | the integrity check finds nothing wrong in a table that satisfies the invariant |
| `UtHash.HashTable.Expand` | urweb/include/urweb/uthash.h:680-726 | doubling keeps the items, their order and the invariant, and sets the statistics as the new chains say |
| `UtHash.ExpansionStops` | urweb/include/urweb/uthash.h:680-726 | over the life of a table doubling is switched off exactly when two doublings in a row have left more than half of the items over the ideal length |
| `UtHash.MoveAll` | urweb/include/urweb/uthash.h:695-715 | the loops over all old buckets file every item in the bucket of its hash value and the new count |
| `UtHash.MultMeans` | urweb/include/urweb/uthash.h:699-703 | the multiplier of a bucket is 0 up to the ideal length, and otherwise how often that goes into its chain |
| `UtHash.LookupAfterAdd` | urweb/include/urweb/uthash.h:182-205 | looking up a key after an addition: the new item for its key, what it was for any other |
| `UtHash.LookupAfterDelete` | urweb/include/urweb/uthash.h:224-257 | looking up a key after a deletion: nothing for the deleted key, what it was for any other |
| `UtHash.LookupUnique` | urweb/include/urweb/uthash.h:103-114 | with distinct keys the item found is the only one that could be |
| `ListSort.SortIsStableSort` | urweb/include/urweb/uthash.h:733-818 | merging runs of doubling length from 1 gives a permutation in order in which items that compare equal keep their order, for any total preorder |
| `ListSort.PassDoubles` | urweb/include/urweb/uthash.h:743-806 | a pass over sorted runs of length n leaves sorted runs of length 2n |
| `ListSort.MergeStable` | urweb/include/urweb/uthash.h:760-798 | a merge keeps the items that compare equal in order, those of the first run first |
| `ListSort.MergeSorted` | urweb/include/urweb/uthash.h:760-798 | a merge of sorted runs is sorted |
| `UtHashSort.MergeTurn` | urweb/include/urweb/uthash.h:762-798 | one turn of the merge: the next item by the comparison is linked in at the end, and what the runs have left still makes up the goal |
| `UtHashSort.MergeLoop` | urweb/include/urweb/uthash.h:760-798 | the relinking loop writes exactly the merge of two adjacent runs after what was there, linked both ways |
| `UtHashSort.SortPass` | urweb/include/urweb/uthash.h:745-806 | a pass leaves the list as the pass on sequences says, linked both ways, and counts its merges so that one merge means the list is done |
| `UtHashSort.Sort` | urweb/include/urweb/uthash.h:733-818 | the application order becomes a stable sorted permutation of itself, with next, previous, head and tail consistent and the buckets untouched; it terminates |
| `Untangle.UntangleCorrect` | urweb/src/core_untangle.sml:61-231 | on any group of distinct names nothing raises, where a reference is a subterm that names a definition, at whatever depth; every definition is emitted once, in source order within its declaration; references go to the same or an earlier declaration; `DVal` is used exactly for definitions that do not reach themselves; two share a declaration exactly when each reaches the other |
| `Untangle.UntangleFile` | urweb/src/core_untangle.sml:233-237 | a whole file is processed without an exception and its definitions are all kept |
| `Untangle.UntangleConcat` | urweb/src/core_untangle.sml:233-237 | a file is processed declaration by declaration, in order |
| `Untangle.UntangleOne` | urweb/src/core_untangle.sml:61-68 | a group gives way to its declarations and every other declaration stays as it is |
| `Untangle.UsedIsReferred` | urweb/src/core_untangle.sml:40-59 | the names collected from an expression are those of the group that some subterm names, at whatever depth |
| `Untangle.ReachIsLeadsTo` | urweb/src/core_untangle.sml:79-127 | the graph joins two definitions exactly when a chain of references leads from the one to the other |
| `Untangle.IterateIsClosure` | urweb/src/core_untangle.sml:96-127 | iterating `expand` stops, at exactly the pairs joined by a path |
| `Untangle.Iterate` | urweb/src/core_untangle.sml:117-125 | the iteration terminates at a fixed point of `expand` |
| `Untangle.GatherKeeps` | urweb/src/core_untangle.sml:139-153 | the fold gathers exactly the component of its representative; every deletion is of a member |
| `Untangle.Sccs` | urweb/src/core_untangle.sml:132-158 | the group is partitioned into its strongly connected components |
| `Untangle.FindReadySucceeds` | urweb/src/core_untangle.sml:174-182 | `findReady` never raises on the components of a closure |
| `Untangle.ReadyFound` | urweb/src/core_untangle.sml:174-182 | a component that depends on no other is found when none before it is |
| `Untangle.TopoOrders` | urweb/src/core_untangle.sml:184-194 | sorting succeeds with a permutation in which dependencies point backwards only |
| `Untangle.EmittedDefs` | urweb/src/core_untangle.sml:218-228 | the emitted declarations hold each definition once |
| `CoreEnv.LiftsCommute` | urweb/src/core_env.sml:77-118 | lifts at two depths commute, for constructors, constructors in expressions and expressions |
| `CoreEnv.SubUndoesLift` | urweb/src/core_env.sml:77-161 | substituting for a variable that a lift has just made room for gives the term back, in all three sorts |
| `CoreEnv.LiftBelowSubCon` | urweb/src/core_env.sml:77-104 | a lift below the substituted variable moves past the substitution, for constructors |
| `CoreEnv.LiftBelowSubConInExp` | urweb/src/core_env.sml:106-132 | the same for constructors in expressions |
| `CoreEnv.LiftBelowSubExp` | urweb/src/core_env.sml:134-161 | the same for expressions |
| `CoreEnv.LiftAboveSubCon` | urweb/src/core_env.sml:77-104 | a lift above the substituted variable moves past the substitution, for constructors |
| `CoreEnv.LiftAboveSubConInExp` | urweb/src/core_env.sml:106-132 | the same for constructors in expressions |
| `CoreEnv.LiftAboveSubExp` | urweb/src/core_env.sml:134-161 | the same for expressions |
| `CoreEnv.SubsExchange` | urweb/src/core_env.sml:92-161 | two successive substitutions may be exchanged, the second acting on what the first put in, in all three sorts |
| `CoreEnv.SortsIndependent` | urweb/src/core_env.sml:106-161 | constructor operations pass through expression lifts unchanged, and through expression substitution by acting on what is substituted too |
| `CoreEnv.PatScope` | urweb/src/core_util.sml:700-780 | the scope of a pattern is as many expression binders deep as `patBindsN` says |
| `CoreEnv.MapPatBinds` | urweb/src/core_env.sml:364-370 | constructor operations do not change how many variables a pattern binds |
| `CoreEnv.ConLawHolds` | urweb/src/core_util.sml:241-337 | each law of constructor operations, under every binder, at every constructor |
| `CoreEnv.ExpLawHolds` | urweb/src/core_util.sml:576-800 | each law of expression operations, under every binder and pattern, at every expression |
| `CoreTree.LiftRenumbers` | urweb/src/core_env.sml:77-144 | what a lift does: the variables of either sort that are free afterwards are those free before, renumbered from the bound up, and the bound itself is not free; for constructors, constructors in expressions and expressions |
| `CoreTree.SubReplaces` | urweb/src/core_env.sml:92-161 | what a substitution does: free afterwards are the variables free before other than the one replaced, those above it one lower, and with them those of the replacement exactly if the one replaced was free; in all three sorts |
| `CoreTree.MapExpDetermined` | urweb/src/core_util.sml:576-800 | with terms as trees whose edges count the variables they bind, an operation changes the leaves that are indices, by how many binders are over them, and nothing else: the result is the one term with that tree |
| `CoreTree.MapConDetermined` | urweb/src/core_util.sml:241-337 | the same for constructors |
| `CoreTree.TreeDetermines` | urweb/src/core_util.sml:576-700 | nothing of an expression is lost in its tree |
| `FormInput.Context.Request` | urweb/src/c/urweb.c:974-1108 | a well-nested form, sent and read back by the code for a type, gives what the form means for that type, wherever the cells are moved to; it fails for want of room only beyond the limit |
| `FormInput.FormComesBack` | urweb/src/c/urweb.c:1005-1108 | a form that fits a type is read as what was put into its fields, rows in their order |
| `FormInput.Feed` | urweb/src/c/urweb.c:1005-1108 | feeding the inputs of any well-nested form fills the current fields with the form, later fields replacing earlier ones, changes no other cell, and is refused exactly when the form names a field that is not there |
| `FormInput.FeedField` | urweb/src/c/urweb.c:1005-1108 | the same for one field, group or table |
| `FormInput.FeedRows` | urweb/src/c/urweb.c:1076-1092 | the rows of a table become a chain of entries from the last to the first |
| `FormInput.Context.SetInput` | urweb/src/c/urweb.c:1005-1108 | on addresses, each input does what it does on indices, is refused where that is, and keeps every pointer inside the arrays |
| `FormInput.Context.OpenGroup` | urweb/src/c/urweb.c:1008-1027 | the branch that opens a subform |
| `FormInput.Context.CloseContainer` | urweb/src/c/urweb.c:1028-1052 | the branch that closes the current container, of whichever kind |
| `FormInput.Context.OpenTable` | urweb/src/c/urweb.c:1053-1069 | the branch that opens a table of subforms |
| `FormInput.Context.OpenRow` | urweb/src/c/urweb.c:1070-1091 | the branch that opens a row: the new entry comes before the earlier ones |
| `FormInput.Context.SetNormal` | urweb/src/c/urweb.c:1092-1105 | the branch that sets a text field, and ignores a name that is no field |
| `FormInput.Context.CheckInputSpace` | urweb/src/c/urweb.c:974-1003 | the cells asked for are added, unset, at the end, and nothing else changes but where the cells are; it fails exactly beyond the limit |
| `FormInput.Context.Reallocate` | urweb/src/c/urweb.c:982-994 | moving the array to wherever the allocator put it leaves every pointer pointing at what it pointed at, and no cell outside the memory |
| `FormInput.Relocated` | urweb/src/c/urweb.c:947-950 | an adjusted pointer points at what it pointed at before |
| `FormInput.RelocatedInput` | urweb/src/c/urweb.c:952-970 | and so for each pointer of a cell |
| `FormInput.Context.ReadFields` | urweb/src/cjr_print.sml:2835-2985 | the code compiled for a record type reads what the cells hold as values of that type, or fails where they are of another; the cells keep what they hold |
| `FormInput.Context.ReadRows` | urweb/src/c/urweb.c:1244-1302 | the loop over the entries of a table builds the list of rows in the order of the form |
| `FormInput.Context.Enter` | urweb/src/c/urweb.c:1207-1231 | entering a subform, or failing where the field is not one |
| `FormInput.Context.Leave` | urweb/src/c/urweb.c:1233-1242 | leaving a container of any kind by its second pointer, which for a subform is where it was entered from, and an error when there is none |
| `FormInput.Context.EnterAll` | urweb/src/c/urweb.c:1244-1274 | entering the first entry of a table, if it has one, or failing where the field is not a table |
| `FormInput.Context.Next` | urweb/src/c/urweb.c:1276-1302 | going on to the next entry, or back out of the table, and an error in a container of another kind or in none |
| `FormInput.Context.GetInput` | urweb/src/c/urweb.c:1110-1132 | the text of a field, nothing for one not given, failure for one of another kind |
| `Utf8.BytesOccur` | urweb/src/c/urweb.c:2694-2707 | self-synchronisation: where the bytes of a nonempty string occur, the string occurs |
| `Utf8.FindBytes` | urweb/src/c/urweb.c:2694-2709 | the first occurrence of the bytes is at the offset of the first occurrence of the characters, and there is one exactly when the other is |
| `Utf8.LeadAtBoundary` | urweb/src/c/urweb.c:2694-2707 | a byte that begins a character is at the offset of a character |
| `Utf8.Strsindex` | urweb/src/c/urweb.c:2694-2707 | the index of the first occurrence in characters |
| `Utf8.Ssidx` | urweb/lib/js/urweb.js:2548-2571 | in the browser, over UTF-16 units, the same index |
| `Utf8.Sspn` | urweb/lib/js/urweb.js:2573-2582 | the number of characters before the first that is in the set, as on the server |
| `Utf8.Agree` | urweb/src/c/urweb.c:2665-2707 | server and browser give the same answers for every pair of strings |
| `Utf8.StrSplit` | urweb/lib/js/urweb.js:46-63 | splitting UTF-16 units into characters gives the characters |
| `Utf8.Strsub` | urweb/src/c/urweb.c:2562-2580 | the n-th character, or an error outside the string |
| `Utf8.Strsuffix` | urweb/src/c/urweb.c:2595-2606 | the characters from the n-th on, none beyond the end, an error for a negative n |
| `Utf8.Strlen` | urweb/src/c/urweb.c:2613-2621 | the number of characters |
| `Utf8.StrlenGe` | urweb/src/c/urweb.c:2623-2635 | whether there are at least so many characters |
| `Utf8.AuxStrchr` | urweb/src/c/urweb.c:2637-2654 | index and byte offset of the first occurrence of a character, or -1 for both |
| `Utf8.Strchr` | urweb/src/c/urweb.c:2656-2663 | the string from the first occurrence of a character on |
| `Utf8.Strindex` | urweb/src/c/urweb.c:2681-2692 | the index of the first occurrence of a character |
| `Utf8.Strcspn` | urweb/src/c/urweb.c:2665-2679 | the number of characters before the first that is in the set |
| `Utf8.Substring` | urweb/src/c/urweb.c:2726-2752 | the characters from start, as many as asked for, or an error exactly when they are not all there |
| `Utf8.Append` | urweb/src/c/urweb.c:2754-2762 | the branches by size write the bytes of the character one after the other at the offset, move it past them, and change nothing else |
| `Utf8.Str1` | urweb/src/c/urweb.c:2754-2767 | the bytes of the character and a final zero fill exactly the space that is reserved for them |
| `Utf8.AppendedLength` | urweb/src/c/urweb.c:2756-2762 | as many bytes are written for a code point as are reserved for it if and only if it is zero or a scalar value |
| `Urlify.ServerRoundTrip` | urweb/src/c/urweb.c:2013-2043 | the server reads back every string that it writes, the empty one and those that begin with an underscore included |
| `Urlify.ClientRoundTrip` | urweb/lib/js/urweb.js:2651-2656 | the server reads back every string that the browser writes |
| `Urlify.RoundTrip` | urweb/src/c/urweb.c:2219-2265 | the server reads back any text in a URL whose characters are each written plain, as a plus, or as bytes escaped with dots or with percent signs |
| `Urlify.FormTextRoundTrip` | urweb/src/c/urweb.c:2319-2331 | and any text in a form, where a dot is itself |
| `Urlify.WrittenPlain` | urweb/src/c/urweb.c:2013-2043 | the server writes digits and letters as themselves, the browser also eight marks, and both everything else as escapes, three characters for a byte, but for the plus of a space |
| `Urlify.UfWhole` | urweb/lib/js/urweb.js:2651-2656 | the passes of `uf` over the whole string, one after the other, write each character as itself or as its escaped bytes |
| `Urlify.UnurlifyStrings` | urweb/src/c/urweb.c:2282-2294 | strings written by either side and joined with slashes are read back as the list they were |
| `Urlify.UrlifyString` | urweb/src/c/urweb.c:2013-2043 | the loop writes the string character by character, within the space that it has reserved |
| `Urlify.UnurlifyStringTo` | urweb/src/c/urweb.c:2219-2265 | the loop reads what the recursive definition says, or stops with an error, whatever `sscanf` takes for a number, for URLs and for forms |
| `Urlify.AuxIsEncoding` | urweb/src/c/urweb.c:1983-2012 | the escapes of a character are those of the bytes of its encoding, for each of the four sizes |
| `Urlify.AdvanceJoin` | urweb/src/c/urweb.c:2180-2189 | advancing over a joined list takes its first string and leaves the rest |
| `MessageText.ReadBody` | urweb/lib/js/urweb.js:2908-2973 | splitting a response into lines and reading them in pairs gives its script and its messages back, when no text has a newline |
| `MessageText.ParseOfDecimal` | urweb/src/c/urweb.c:3642 | a channel number as it is printed is read as itself |
| `ServerMessages.Server.Connect` | urweb/src/c/urweb.c:279-326 | a connection gets what is kept, or waits if nothing is, and the socket that waited before it is closed; an unknown client, slot or password is told to reload and nothing else changes |
| `ServerMessages.Server.ClientSend` | urweb/src/c/urweb.c:343-362 | a message goes to the waiting socket at once or is kept after the others, exactly when it fits; for every client what is in the responses written to it, in order, and what is kept are together what was sent to it |
| `ServerMessages.Transaction.Send` | urweb/src/c/urweb.c:3634-3649 | a message joins those of its client in this transaction, after them; it fails exactly when it is for a further client and there are as many deltas as there may be |
| `ServerMessages.Transaction.AllocateDelta` | urweb/src/c/urweb.c:3603-3623 | one delta for each client that is sent anything: the one it has, or a new empty one at the end, or none when there are too many; the others stay as they are |
| `ServerMessages.Transaction.SendAll` | urweb/src/c/urweb.c:3787-3794 | each client gets its part of the transaction whole, with the script if it waits, or not at all |
| `BrowserChannels.Queue.Enqueue` | urweb/lib/js/urweb.js:2862-2871 | the linked queue has one more element, at its end |
| `BrowserChannels.Queue.Dequeue` | urweb/lib/js/urweb.js:2872-2882 | the linked queue loses its first element, or says that it has none |
| `BrowserChannels.Channel.Arrive` | urweb/lib/js/urweb.js:2951-2968 | the oldest receive gets an arriving message, or the message waits |
| `BrowserChannels.Channel.Receive` | urweb/lib/js/urweb.js:3013-3030 | a receive gets the oldest message, or waits |
| `BrowserChannels.AfterArrival` | urweb/lib/js/urweb.js:2951-2968 | an arrival keeps only what is in excess, and makes exactly the call that is due: the i-th receive with the i-th message |
| `BrowserChannels.AfterReceive` | urweb/lib/js/urweb.js:3013-3030 | and so does a receive |
| `BrowserChannels.BodyEvents` | urweb/lib/js/urweb.js:2908-2930 | a response that the server writes is never taken for the command to reload nor for a lost connection, and has its script and its messages in it |
| `BrowserChannels.Page.Respond` | urweb/lib/js/urweb.js:2900-2930 | a response is read from its first line, or is empty, or tells the page to reload, or means that the connection is lost |
| `BrowserChannels.Page.Turn` | urweb/lib/js/urweb.js:2933-2971 | one turn of the reader runs the script or has the message arrive on its channel, and goes on to the next pair of lines |
| `BrowserChannels.Page.Receive` | urweb/lib/js/urweb.js:3003-3031 | a receive on any channel keeps every channel so |
| `MessageDelivery.Session.Arrive` | urweb/lib/js/urweb.js:2908-2973 | the next response written to the client comes to the page; there is something in it to read, so that the page asks for another |
| `MessageDelivery.Session.Turn` | urweb/lib/js/urweb.js:2933-2971 | while the page reads, what has arrived and what is still to be read are the responses that have come |
| `MessageDelivery.Session.Receive` | urweb/lib/js/urweb.js:3003-3031 | so it is when the page receives between two turns, or from a continuation |
| `MessageDelivery.Session.Connect` | urweb/src/c/urweb.c:279-326 | so it is when any client connects |
| `MessageDelivery.Session.Commit` | urweb/src/c/urweb.c:3787-3794 | so it is when a transaction sends to its clients; what the client was sent grows by its part, or not at all |
| `MessageDelivery.Delivery` | urweb/lib/js/urweb.js:2859-3031 | from end to end, in every state that these operations reach: the i-th call on a channel of the page is of the i-th receive with the i-th message sent to the client on it; when all has been read and nothing is kept, no message is held back from a receive |
| `MessageDelivery.ScriptsRun` | urweb/lib/js/urweb.js:2938-2940 | the scripts of the responses are run once each, in order |
| `Uncurry.Sound` | urweb/src/cjrize.sml:291-304 | what the translated program computes, the curried one computes |
| `Uncurry.NeverWrong` | urweb/src/cjrize.sml:240-304 | a term in which every function is given exactly the arguments of its type and no abstraction is left, of a program whose definitions with their arguments are such terms, never comes to a call that is none in C |
| `Uncurry.SameValue` | urweb/src/cjrize.sml:544-583 | for such terms the translated program has a value exactly when the curried one has, and it is the same |
| `Uncurry.CallExactly` | urweb/src/cjrize.sml:291-304 | a call of a named function, with arguments of the right types, has the value of the curried application if and only if there are as many arguments as its type has |
| `Uncurry.UnsaturatedCall` | urweb/src/cjrize.sml:291-304 | a call with another number of arguments comes out wrong, in any program |
| `Uncurry.OneOutcome` | urweb/src/cjrize.sml:240-304 | a translated term has one outcome, so one that comes out wrong has no value |
| `Uncurry.PartialApplication` | urweb/src/cjrize.sml:291-304 | a function of two arguments that is given one has a value in the curried program and none in the translated one |
| `Uncurry.Complete` | urweb/src/cjrize.sml:544-583 | whatever the curried program computes, the outcome of the translated one is the same value or wrong |
| `Uncurry.CallIsCurried` | urweb/src/cjrize.sml:549-572 | the body of the function of several arguments, with the arguments in it, has the value of the curried application |
| `Uncurry.CurriedIsCall` | urweb/src/cjrize.sml:549-572 | and the other way round, by a smaller computation |
| `Uncurry.ToCurried` | urweb/src/cjrize.sml:551-568 | stripping abstractions and supplying arguments where there are none preserve meaning, under the arguments so far |
| `Uncurry.SpineApps` | urweb/src/cjrize.sml:293-298 | flattening nested applications loses and reorders nothing |
| `Uncurry.CifySubst` | urweb/src/cjrize.sml:240-304 | putting values into a term and translating it commute |
| `StructTable.CifyKeeps` | urweb/src/cjrize.sml:102-170 | translating a type numbers every record and list in it, gives what the table says, keeps all earlier numbers and mentions no number not yet given |
| `StructTable.CompareEqual` | urweb/src/mono_util.sml:36-83 | the comparison that orders the maps answers EQUAL exactly for types that are the same up to the order of fields, at every depth |
| `StructTable.CompareFlip` | urweb/src/mono_util.sml:36-83 | comparing the other way round gives the opposite answer |
| `StructTable.CompareChains` | urweb/src/mono_util.sml:36-83 | and it is transitive, so that it is a total order |
| `StructTable.SameNumber` | urweb/src/cjrize.sml:65-76 | two record types have the same number exactly when they compare as equal |
| `StructTable.NoOverwrite` | urweb/src/cjrize.sml:78-91 | a list without a number never overwrites the number of a record |
| `StructTable.FindKeeps` | urweb/src/cjrize.sml:65-76 | finding a record keeps what the table keeps, and numbers it; what the new struct declares is `StructFields.FindRight` |
| `StructTable.FindListKeeps` | urweb/src/cjrize.sml:78-91 | finding a list keeps what the table keeps, and numbers its cells |
| `StructTable.StructsInOrder` | urweb/src/cjrize.sml:704-744 | there are as many structs as numbers were given out; they are numbered 1, 2, 3 and so on in the order of their declarations, every record and list of the table has its struct but for the empty record, and each mentions only earlier ones but for the link of a list cell |
| `StructTable.NormOfSorted` | urweb/src/mono_util.sml:38-83 | sorting the fields of a record leaves it the same type for the comparison |
| `StructTable.LessMeans` | urweb/src/mono_util.sml:79-83 | names are in the order of a dictionary: a proper prefix first, or the smaller character at the first difference |
| `StructFields.RecordDeclared` | urweb/src/cjrize.sml:65-76 | every record of the final table but the empty one has a struct with its number, and the struct has exactly the fields of the record, each with its type translated as the final table says; they are in the order of their names exactly when the struct declares them so |
| `StructFields.ListDeclared` | urweb/src/cjrize.sml:78-92 | the struct of every list is a cell: 1, the element with its type translated, and 2, the list itself |
| `StructFields.InOrderIffTidy` | urweb/src/cjrize.sml:323-342 | all structs of a program have their fields in order exactly when no record gets its number from a term, or from the tables of a query, with its fields out of order |
| `StructFields.OutOfOrder` | urweb/src/cjrize.sml:323-342 | a program whose first record is a term with fields B and A declares its struct out of order |
| `StructFields.FindRight` | urweb/src/cjrize.sml:65-76 | the struct declared for a new record has its fields as they are given, and those declared before stay right |
| `StructFields.SameTranslation` | urweb/src/cjrize.sml:102-170 | two types have the same translation exactly when the comparison calls them equal, when neither is a signal nor a foreign type that sources and signals are translated to |
| `StructFields.DeclarationsInOrder` | urweb/src/cjrize.sml:704-744 | first the declarations of types, declaration by declaration of the source: datatypes announced, the structs numbered for it, the datatypes; then all the rest in the order of the source |
| `CheckNest.AnnotateMarks` | urweb/src/checknest.sml:130-187 | every prepared query of the annotated program is marked as nested exactly when its body leads back to its statement with groups merged; nothing else changes |
| `CheckNest.RealNestingIsUse` | urweb/src/checknest.sml:75-128 | a query whose body leads to its statement by any chain of calls is marked |
| `CheckNest.GlobalsAre` | urweb/src/checknest.sml:160-172 | the fold finds exactly the statements that a name reaches, the functions of a group counted as one |
| `CheckNest.UsesAre` | urweb/src/checknest.sml:35-96 | a term uses the statements in it and those of the functions it names |
| `CheckNest.IdsAndNamesAre` | urweb/src/checknest.sml:35-96 | the statements and names of a term are those that some subterm prepares or is, at whatever depth |
| `CheckNest.AnnotateExpMarks` | urweb/src/checknest.sml:98-154 | annotating a term marks its queries |
| `CheckNest.AnnotateKeeps` | urweb/src/checknest.sml:98-154 | and changes nothing else: neither its statements nor its names |
| `Commit.EachOnce` | urweb/src/c/urweb.c:3706-3805 | on every path each transactional is freed once, the client is released once, each lock of the cache is let go of once, and the lock on messages is let go of exactly when it was taken |
| `Commit.InOrder` | urweb/src/c/urweb.c:3706-3805 | messages are delivered only under their lock, and messages, cache updates and callbacks that cannot be undone only after the database has committed or when it had no part; the lock is free at the end |
| `Commit.Context.Commit` | urweb/src/c/urweb.c:3706-3805 | the calls made are those of the specification, the result asks for another run exactly when the database reports a serialization failure, and the error state is that of the ending (`CommitOrder.EndingTells`) |
| `Commit.Context.Rollback` | urweb/src/c/urweb.c:3651-3676 | the calls made are those of the specification, each of which `CommitOrder.RollbackDoes` counts: release, cleanups, undoing, freeing and the rollback of the database |
| `CommitOrder.EachEvent` | urweb/src/c/urweb.c:3706-3805 | how often each event happens, by how the transaction ends: a rollback callback once if the transaction is given up, run again or fails late, and otherwise never; a cleanup once if it is given up; a commit callback once if its loop gets to it; a message once if all goes well; a cache update once if the callback of the cache is run; and so on for every kind |
| `CommitOrder.EventsInSequence` | urweb/src/c/urweb.c:3706-3805 | the events come in one order on every path: callbacks that can be undone, the lock, the database, the other callbacks, messages, the releases, cleanups, undoing, freeing, the rollback of the database; callbacks from last to first, cleanups and messages from first to last |
| `CommitOrder.RollbackDoes` | urweb/src/c/urweb.c:3651-3676 | a rollback releases the client, runs each cleanup, undoes each transactional that can be undone, frees each that wants it, and rolls the database back if it had begun, each once, and does nothing else |
| `CommitOrder.EndingTells` | urweb/src/c/urweb.c:3709-3774 | another run is asked for exactly when the database reports a serialization failure after all callbacks that can be undone went well; it is an error exactly if the transaction is given up, refused or fails late |
| `CommitOrder.RegisteredOne` | urweb/src/c/urweb.c:5243-5252 | the query cache has one transactional at most |
| `Commit.Context.CommitAll` | urweb/src/c/urweb.c:3715-3723 | the commit callbacks of one kind from the last to the first, up to the first error |
| `Commit.UnlockedForEach` | urweb/src/c/urweb.c:5214-5262 | on every path each lock of the cache is let go of as often as there are transactionals of the cache that free |
| `Commit.UnlockedExactly` | urweb/src/c/urweb.c:5214-5262 | so once on every path if the transactional of the cache is registered, and if it is not then never, on any path |
| `Commit.Context.PushUnlock` | urweb/src/c/urweb.c:5243-5252 | a lock joins the list of the transactional of the cache; the transactional is missing exactly when it was missing before or when this is the first lock and there is no place to register, and then no lock on the list is ever let go of |
| `FastCgi.Input.Next` | urweb/src/c/fastcgi.c:100-128 | however the bytes come, the next record of the stream if a whole one of a size that the buffer holds is there, and nothing otherwise; what is left is what comes after it |
| `FastCgi.ReadAll` | urweb/src/c/fastcgi.c:100-128 | the records received are those of the whole stream |
| `FastCgi.Output.WriteStdout` | urweb/src/c/fastcgi.c:138-154 | the buffer goes out as whole records and a rest, if the connection lives that long |
| `FastCgi.WrittenIsRead` | urweb/src/c/fastcgi.c:88-154 | what is written is read as records whose contents make up the buffer |
| `FastCgi.RecordShape` | urweb/src/c/fastcgi.c:88-98 | a record as it is sent is received as itself |
| `FastCgi.RecordHeader` | urweb/src/c/fastcgi.c:66-98 | the header of a record: version 1, the type, the request id high byte first, no padding |
| `FastCgi.RecordsHeaded` | urweb/src/c/fastcgi.c:138-154 | every record written is a non-empty one of standard output for the request |
| `FastCgi.ReadNvp` | urweb/src/c/fastcgi.c:281-309 | a pair, or the code of the length or the content that is not all there |
| `FastCgi.PairComesBack` | urweb/src/c/fastcgi.c:261-309 | a pair encoded as section 3.4 of the FastCGI specification says is read back, wherever it is in a buffer |

## Left out

- UrInterp.ExecAgrees: not for the kinds `K` (continuations that capture frames with their argument state), `e` and `wc`.
- UrInterp.Exec1: native functions are total functions on values; what they do to the page is not modelled.
- Reactive.Page.Refresh: the `recreate` of a node is modelled as recording the value it is given; rendering the page, and errors in it, are left out, and so are signals that set sources while they run.
- Sqlcache.Cache.Check: eviction of entries and the random bump that decides their order are left out, and so are locks, the freeing of values and the wrap-around of the clock.
- Sqlcache.Transaction.Commit: for the updates of one cache; those of several stand in one list in the source, and each cache sees its own in order.
- UtHash.HashTable.Add: handles are values in a map from items to handles, one for each table, so a handle that is in two tables at once is not modelled; the number of buckets does not wrap around; `HASH_SELECT`, Bloom filters and the hash functions themselves are left out.
- UtHashSort.Sort: the length of runs does not wrap around.
- Untangle.UntangleCorrect: the forms of expressions that name no definition are one constructor.
- Untangle.UntangleFile: names that occur twice in one group are excluded, as the earlier phases of the compiler do.
- CoreEnv.ConLawHolds: kinds inside constructors are left alone, and there are no laws for kind indices, which the source does not lift under kind binders.
- CoreEnv.ExpLawHolds: primitive values are opaque, and source locations are dropped.
- Uncurry.SameValue: for the pure fragment with primitives, operators, conditionals, `let` and functions; effects, records and patterns are left out, and base types are not told apart. A recursive group is covered where its functions have their abstractions, as the source demands of it.
- StructTable.StructsInOrder: a declaration is the list of its requests to the table; terms are not modelled apart from that, and a datatype is mentioned by name only.
- CheckNest.AnnotateMarks: the forms of terms that only pass on what is in their parts are one constructor.
- FormInput.Context.Request: file inputs are left out; they are always stored at the top level. `realloc` succeeds.
- FormInput.Context.Leave: a current container that is an unset or a text cell, where the source reads a member of a union that was never written, is excluded.
- FormInput.Context.Next: the cell that the last entry has for its table is taken to be one, as the source does.
- Utf8.Str1: for scalar values; a surrogate or a number too large reserves nothing (`Utf8.AppendedLength`).
- Utf8.Strsub: for valid UTF-8 only; what the macros of ICU do with other bytes is not part of this model. Offsets are unbounded.
- Urlify.ServerRoundTrip: what `sscanf` makes of anything but two hexadecimal digits is a parameter.
- ServerMessages.Server.ClientSend: a write to a socket writes everything; locks and threads are left out, and each operation is one step. Clients that come and go, and the limit on the size of the messages of one delta, are left out.
- BrowserChannels.Page.Respond: a page keeps its channels as values with the contents of their queues, which `BrowserChannels.Channel` shows the linked queues to have; connecting again after a response, and the reload, are left out.
- MessageDelivery.Session.Arrive: each response written for the client reaches its page, in order; scripts and messages have no newline in them.
- Commit.Context.Commit: callbacks do not register further transactionals; the splicing of scripts into the page is left out.
- CommitOrder.EachEvent: for one transactional of the cache at most, which is what the cache registers (`CommitOrder.RegisteredOne`).
- FastCgi.ReadNvp: the sum of two lengths is unbounded, so overflow of an `int` in malformed input is not modelled; buffers for names and values always have room.
- Sockets, threads, files, cryptography, time formatting and the database itself are outside the model, and so is the balance of arrivals and departures in `request.c`.
- Compiler passes other than the four modelled, the Unicode tables, and the design notes are left out.
