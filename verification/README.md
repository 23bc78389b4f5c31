# Dafny models of the VeriFast example programs

A Dafny project that models the hardest C examples of the repository and proves
properties that their own annotations leave open: those mostly claim memory
safety, while here the programs are proved to compute the right thing, in every
run and for every schedule.

Three groups of programs are modelled.

**Two interpreters for one language** (`examples/gcl.c`, `examples/gcl0.c`,
`examples/rcl.c`).

* `Language` is the machine both interpreters run, on immutable values: an operand
  stack, a continuation stack and an output log. `BigStep` is a lexically scoped,
  argument-first big-step semantics; the machine refines it both ways. `TailCalls`
  shows that tail calls take no continuation space, `HelloForever` that the endless
  example of the documentation really prints for ever. `Syntax` has the grammar, a
  printer and the round trips between them; `Session` is a whole session. `Laws` says
  what lookup, binding and the forms mean without the functions that define them, and
  `Programs` what some whole programs print, token by token. `Costs` says how deep calls of `apply` nest in a turn of the loop and how much memory it needs.
* `Marking` is pointer-reversing graph marking independent of object layout;
  `SchorrWaite` is its bare two-child loop. `Objects`, `Collector`, `GclParser` and
  `Gcl` are the garbage-collected runtime on a heap of objects: object list, root
  stack, both markers, sweep, allocation limit, the parser that uses unfinished
  cells as its stack, and the evaluator. Any allocation may collect; still every
  operation does what the machine on values does. `Weights` bounds the live objects by
  the sizes of the rooted values, so that running out of memory is a matter of the
  program's values; `HelloRuns` concludes that the endless example never does.
* `RefCount`, `Counting`, `Rcl`, `RclParser` and `RclMain` are the reference-counted
  runtime. Every operation gives up exactly the references it is handed; every count
  is the number of references to the object; nothing leaks. `Nesting` has the values
  whose release nests deepest.
* `Agreement` puts the two together: on every input they print the same, or the
  collected one stops early, its heap full of live objects.

**Concurrency protocols**, as steps of any number of threads in any interleaving:
the reusable barrier and its two-thread client (`Barrier`, `BarrierClient`), the
lock-order discipline and the dining philosophers (`LockOrder`, `Philosophers`), and
the compare-and-swap lock (`TraceLock`).

**Pointer structures**: trees that cache subtree counts (`Composite`,
`CheckedComposite`) and linked-list insertion sort in place (`InsertionSort`), on top
of `Pointers` and `LinkedLists`.

## How the programs are modelled

* C structs live in map-valued fields of a class, one map per struct field; a boolean
  field is the set of objects in which it is true, and the reference counts are one
  multiset. A pointer to a pointer (`h` in the sweep, `pn` in the sort) is the object
  whose `next` field it points to, or null for the list head.
* A ghost map `val` gives the immutable value each interpreter object stands for.
* `Result` has the two ways the interpreters end: out of memory, or aborting on a bad
  program. Input is a sequence of tokens, output a log of printed atoms.
* The outermost loops never end in C. Here a session runs with a budget of turns per
  expression, for every budget, so every finite part of every run is covered.
* A thread's turn in a protocol is one section that it executes under the mutex, or
  one access to a shared variable.

## Where the code and its comments differ

* The headers of both interpreters say the C program performs no recursion, so that its
  stack cannot overflow (lines 30-33). Of `examples/rcl.c` this is false:
  `object_release` calls `dispose`, which calls `object_release` on the fields. The
  model follows the code. A release nests no further call exactly if the object has
  another reference or no fields (`Counting.Memory.Release`); it nests at most one call
  per level of the object's value, and exactly so many if nothing below is shared. For
  every n the input `(quote ((... x) x))` with n levels of pairs makes `main` nest n + 1
  calls (`RclMain.DeepRelease`).
* In both programs `apply` also calls itself through `pop_apply` and `eval`, but in no run
  more than two deep (`Costs.TurnDepth`, `Gcl.Interpret`, `RclMain.Interpret`). So of
  `examples/gcl.c` the claim is true in effect: its stack is bounded.
* `atomic_cas` in `examples/concurrent_cell2.c` promises only that a trace is a prefix
  of itself (line 57), and one lemma there calls an undeclared `test` (line 168). The
  model states what the other operations promise: the trace the thread saw last is a
  prefix of the current one.

## Model

| member | source | states |
|---|---|---|
| BigStep.Adequacy | examples/gcl.c:1510-1671 | On top of any two stacks an `eval` continuation comes back exactly when the expression has a value in the big-step semantics, with that value pushed on the unchanged operand stack and exactly its output printed; it aborts exactly when the expression is stuck. |
| BigStep.Simulate | examples/gcl.c:1510-1580 | For every fuel, the machine follows the evaluation of an expression without touching the continuations below it. |
| BigStep.SimulateCall | examples/gcl.c:1617-1662 | Applying a function value to an argument does what calling it means: built-ins print, quote or make a closure; a closure's body runs with its parameter bound in its own environment, in the sense of `Laws.ParameterIsBound`. |
| BigStep.MeaningIsUnique | examples/gcl.c:1510-1580 | An expression has at most one value and output. |
| BigStep.ReturnsOnlyValues | examples/gcl.c:1793-1799 | If the loop comes back to the continuations below, it has pushed one value that the semantics gives the expression. |
| BigStep.CrashesOnlyIfStuck | examples/gcl.c:1510-1671 | If the loop aborts above the continuations below, the semantics says the expression is stuck after the same output. |
| Laws.AssocMeans | examples/gcl.c:1438-1460 | On a list seen as its elements and its ending: `assoc` finds a value exactly if it is that of the first binding of the name and only bindings of other names come before; it finds nothing exactly in a list of bindings of other names that ends in nil; and it aborts exactly if something else comes first. |
| Laws.Variable | examples/gcl.c:1523-1526 | An atom has the value its environment binds it to in that sense, on the machine and in the semantics, and is stuck without one. |
| Laws.OrdinaryCall | examples/gcl.c:1550-1577 | A pair whose operator is no atom, or an atom that the forms do not bind, schedules argument, operator and application, and means evaluating them in that order; so an operator can be any expression. |
| Laws.SpecialForm | examples/gcl.c:1535-1549 | A pair whose operator is an atom that the forms bind hands that form the environments and the unevaluated argument; malformed forms abort. |
| Laws.ParameterIsBound | examples/gcl.c:1617-1662 | Applying a closure schedules its body on the stacks it found; there the parameter has the argument as its value and every other name is bound, or not, as in the closure's own environment. |
| Laws.Shadowing | examples/rcl.c:929-958 | The body of a closure made inside another one with the same parameter sees its own argument, and for all other names the environment of the outer closure. |
| Laws.InitialNames | examples/gcl.c:1751-1778 | The special forms are exactly `fun` and `quote`, and the only global variable is `print_atom`. |
| Laws.QuoteLaw | examples/gcl.c:13 | `(quote e)` evaluates to e itself, in every environment. |
| Laws.FunLaw | examples/gcl.c:12 | A lambda expression evaluates to the closure over the environment it is in. |
| Laws.BetaLaw | examples/gcl.c:10-13 | Applying a lambda expression prints what the argument prints and then does what the body does with the parameter bound to the argument's value. |
| Laws.PrintLaw | examples/gcl.c:15 | `print_atom` prints the value of its argument if that is an atom, after what the argument prints, and returns nil; otherwise it is stuck. |
| Programs.HelloWorld | examples/gcl.c:19-20 | The tokens of the first documented example make the session print the quoted atom, for any atom, and no more. |
| Programs.ArgumentIsPrinted | examples/rcl.c:944-957 | A lambda that prints its parameter, applied to any quoted atom, prints that atom, whatever the parameter is called. |
| Programs.Curried | examples/rcl.c:831-883 | A call whose operator is a call evaluates, and prints what the inner function prints. |
| Programs.SessionOfMany | examples/gcl.c:1785-1801 | On the tokens of any expressions a session prints what they print one after the other, each in the initial environments, up to one that is stuck. |
| Programs.ExampleTokens | examples/gcl.c:22-24 | The endless example is the expression of its documented tokens. |
| TailCalls.TailCallReusesStack | examples/gcl.c:1639-1661 | A closure body starts on exactly the operand and continuation stacks its application expression started on. |
| TailCalls.TailChainConstantSpace | examples/gcl.c:1550-1577 | Any number of successive tail calls enters each body with the stacks of the first. |
| Laws.CallsAreTail | examples/gcl.c:1550-1577 | Every application of a closure, whatever its operator, is such a tail call into the closure's body, with the parameter bound to the argument. |
| HelloForever.PrintsForever | examples/gcl.c:22-24 | For every n there is a number of turns after which the session on the documented endless example is still running, having printed Hello exactly n times. |
| HelloForever.Rounds | examples/rcl.c:22-24 | After any number of rounds the machine is in the state it was in, having printed one Hello per round. |
| HelloRuns.RunExample | examples/gcl.c:22-24 | For every number of turns the garbage-collected program on the endless example neither aborts nor runs out of memory, and has printed nothing but Hello, as often as the session has. |
| HelloRuns.Fits | examples/gcl.c:714-721 | However long the example runs, what its session needs stays below the limit of 10000, and it never ends. |
| HelloRuns.Follows | examples/gcl.c:1793-1799 | The machine goes through the same states of the example's calls again and again, printing once on each way round. |
| Syntax.ParsePrint | examples/gcl.c:1083-1168 | Parsing the print of an expression followed by any tokens gives the expression and leaves those tokens. |
| Syntax.PrintParse | examples/rcl.c:396-443 | Whenever parsing succeeds, the tokens consumed are exactly the print of the result. |
| Syntax.ContinueOpen | examples/gcl.c:1083-1168 | Opening a pair on the parser's stack and reading on is what the grammar says about an opening parenthesis. |
| Session.SessionSound | examples/gcl.c:1751-1801 | A session that ends has printed what the big-step semantics of its expressions says. |
| Session.SessionComplete | examples/gcl.c:1751-1801 | What the semantics says a session prints is printed, given enough turns. |
| Session.ExpressionEnds | examples/rcl.c:1084-1098 | An expression that ends within its turns has pushed one value on the operands it found and left no continuation. |
| Costs.TurnDepth | examples/gcl.c:30-33 | A turn of the loop nests two calls of `apply` exactly if it pops an operand to apply or hands a special form its argument, and otherwise one; never more. |
| Costs.StepKeeps | examples/gcl.c:1793-1799 | Turns keep to states whose operands hold no `eval` or `pop_apply` functions, which is why nesting stays bounded. |
| Costs.TurnSpace | examples/gcl.c:698-735 | What the allocations of a turn can have to account for is at most nine times the nodes of the rooted values, and twenty. |
| Costs.SessionOutputGrows | examples/gcl.c:1582-1604 | What a session has printed is the first part of all it prints. |
| Marking.MarkedExactly | examples/gcl.c:413-527 | A set that is closed under children, contains the root and the old marks and nothing unreachable is the old marks plus what the root reaches. |
| Marking.Descend | examples/gcl.c:894-913 | Entering an unmarked node and reversing its first pointer keeps the marking invariant. |
| Marking.Swing | examples/gcl.c:915-942 | Moving the reversed pointer to the next child slot keeps the marking invariant. |
| Marking.Ascend | examples/gcl.c:1313-1330 | Restoring the last pointer and going back to the parent keeps the marking invariant. |
| Marking.EndRun | examples/gcl.c:420-526 | When the stack of reversed pointers is empty, all pointers are as at the start and exactly the reachable nodes are newly marked. |
| SchorrWaite.Heap.Mark | examples/schorr_waite.c:18-59 | The two-child loop restores every pointer and marks exactly what is reachable, on every graph with cycles and sharing, and ends. |
| SchorrWaite.MarkIsLeast | examples/schorr_waite.c:18-59 | What the loop has to mark is the least set with the root and the old marks that has both children of each of its nodes. |
| Collector.Runtime.Mark | examples/gcl.c:413-527 | On every heap, with any cycles and sharing, marking leaves every pointer as it was and marks exactly the old marks plus what the root reaches; it ends because unmarked objects, then unvisited slots, then the label decrease. |
| Collector.Runtime.StartMarking | examples/gcl.c:894-913 | The class's `start_marking`: the first child slot takes the parent, the child becomes current; atoms and nil have nothing to visit. |
| Collector.Runtime.MarkNext | examples/gcl.c:915-942 | The class's `mark_next`: the slot being visited gets its child back and the next slot, if any, takes the parent. |
| Collector.Runtime.RecursiveMark | examples/gcl0.c:307-363 | The recursive marker marks the same set. |
| Collector.Runtime.MarkChildren | examples/gcl0.c:686-697 | A class's `mark` marks all children and nothing unreachable. |
| Agreement.MarkersAgree | examples/gcl0.c:307-363 | From the same heap, marks and root the pointer-reversing and the recursive marker mark the same objects and leave the same pointers. |
| Collector.Runtime.MarkRoots | examples/gcl.c:529-556 | Marking from every root marks exactly the live objects. |
| Objects.LiveMeans | examples/gcl.c:529-556 | An object is live exactly if some root leads to it. |
| Weights.ReachBound | examples/gcl.c:413-527 | An object reaches at most as many objects as the tree of its value has nodes. |
| Weights.LiveBound | examples/gcl.c:529-556 | At most as many objects are live as the rooted values have nodes. |
| Collector.Runtime.Sweep | examples/gcl.c:558-668 | The list becomes the marked objects in their old order, all marks are cleared, and each unmarked object is disposed once, in list order. |
| Objects.FilterOrder | examples/gcl.c:558-668 | Of two objects that are kept, the one that came first still does. |
| Collector.Runtime.Gc | examples/gcl.c:529-668 | After a collection the list, the heap and the values are the old ones restricted to what the roots reach, in order; everything else is disposed once; the invariant holds again, with the object count the list length and at most 10000. |
| Collector.Runtime.MakeRoom | examples/gcl.c:698-735 | There is room for an object exactly unless 10000 objects are all live. |
| Collector.Runtime.RegisterObject | examples/gcl.c:698-735 | A new object whose children are rooted is added in front of what survives; it fails exactly when all 10000 objects are live. |
| Collector.Runtime.FullWeighs | examples/gcl.c:714-721 | If 10000 objects are all live, the rooted values have 10000 nodes or more. |
| Collector.Runtime.constructor | examples/gcl.c:1695-1749 | At the start the heap is the nil object, rooted with both stacks. |
| Collector.Runtime.PushRoot | examples/gcl.c:312-321 | A variable holding a live object becomes the newest root; the invariant holds. |
| Collector.Runtime.SetRoot | examples/gcl.c:340-351 | A rooted variable is assigned a live object; the other roots stay. |
| Collector.Runtime.PopRoot | examples/gcl.c:353-362 | The newest root goes; the three global ones cannot. |
| Collector.Runtime.Dispose | examples/gcl.c:944-950 | An object other than nil leaves the heap and is logged as disposed. |
| Collector.Runtime.CreateCons | examples/gcl.c:954-977 | A pair of two live objects, whatever the allocation collects; all rooted variables keep their objects and values. |
| Collector.Runtime.CreateAtom | examples/gcl.c:1059-1072 | An atom; all rooted variables keep their objects and values. |
| Collector.Runtime.CreateFunction | examples/gcl.c:1343-1363 | A function object; all rooted variables keep their objects and values. |
| GclParser.ParseObject | examples/gcl.c:1083-1168 | The parser on unfinished cells returns an object of the value the grammar gives, consumes the same tokens and fails on the same inputs, whichever allocations collect; other roots are kept. It runs out of memory only if the rooted values and four nodes a token reach the limit. |
| GclParser.FillHead | examples/gcl.c:1132-1138 | Storing the head of the innermost unfinished cell leaves the cells below it what they are. |
| GclParser.CloseTail | examples/gcl.c:1139-1148 | Storing the tail of the innermost unfinished cell finishes it and makes the next cell innermost. |
| GclParser.StartPair | examples/gcl.c:1159-1163 | An opening parenthesis puts a new unfinished cell on the parser's stack, over a collection. |
| GclParser.AttachTail | examples/gcl.c:1139-1148 | A closed pair becomes the expression to attach; the rest of the stack and the caller's roots stay. |
| Gcl.DestructCons | examples/gcl.c:979-1003 | The parts of a pair, or abort if it is none. |
| Gcl.PushOn | examples/gcl.c:1173-1185 | A stack in a root gets a new top; the other roots keep their objects and values. |
| Gcl.Pop | examples/gcl.c:1187-1215 | The top operand, and the stack without it; abort on the empty stack. |
| Gcl.PopCont | examples/gcl.c:1231-1263 | The top continuation, or null when there is none. |
| Gcl.AssocObject | examples/gcl.c:1438-1460 | The object bound to the name of an atom, null if there is none, abort on a malformed list; which binding that is, `Laws.AssocMeans` says. |
| Gcl.ApplyObject | examples/gcl.c:1365-1390 | Applying a function object does what applying its value does and nests calls as deep as `Costs` says; or aborts after the same output; or the heap is full of live objects, what was printed is a first part of that output, and the nodes of the values involved reach the limit. |
| Gcl.PopApplyObject | examples/gcl.c:1392-1398 | `pop_apply` applies the operand on top, one call deeper. |
| Gcl.EvalObject | examples/gcl.c:1510-1580 | `eval` on objects does what it does on values and nests as deep as `Costs` says; every object it uses survives the collections in between; it runs out of memory only if the values involved are that large. |
| Gcl.PrintAtomObject | examples/gcl.c:1582-1604 | `print_atom` prints the characters of the atom on top and replaces it by nil. |
| Gcl.QuoteObject | examples/gcl.c:1606-1615 | `quote` replaces the operand on top by its unevaluated part. |
| Gcl.FunObject | examples/gcl.c:1664-1671 | `fun` makes a closure of the operand on top. |
| Gcl.FunApplyObject | examples/gcl.c:1617-1662 | Applying a closure schedules its body with the parameter bound, over collections; `Laws.ParameterIsBound` says what the body then sees. |
| Gcl.MapCons | examples/gcl.c:1462-1470 | A rooted binding list gets one more binding in front. |
| Gcl.ScheduleCall | examples/gcl.c:1550-1577 | A call schedules argument, function and application, its parts surviving the collections in between. |
| Gcl.AddPrimitive | examples/gcl.c:1486-1493 | A rooted binding list gets a built-in function in front. |
| Gcl.Setup | examples/gcl.c:1751-1778 | Before the loop the environments hold the special forms and `print_atom`; there is always memory for them. |
| Gcl.RunConts | examples/gcl.c:1793-1799 | The inner loop of `main` does as many machine steps, keeps the invariant and never nests `apply` more than two deep. |
| Gcl.Expression | examples/gcl.c:1785-1801 | One expression is parsed, run and its value dropped, as in the session on values; the invariant holds in every outcome. |
| Gcl.Interpret | examples/gcl.c:1751-1801 | On every input the whole program does what the session on values does, or stops with 10000 objects all live, having printed a first part of what the session prints and only if what the session needs reaches the limit. In every outcome the invariant holds, the object count is the list length and at most 10000, and nil is not disposed. Calls of `apply` never nest more than two deep. |
| RefCount.NoGarbage | examples/rcl.c:276-296 | With right counts and published objects that stand for values, every live object is reachable from a stack, a handle or nil. |
| RefCount.CountIsReferences | examples/rcl.c:79-101 | With right counts, the count of an object is the number of fields of live objects that point to it and of references from outside. |
| RefCount.ExactlyReachable | examples/rcl.c:145-179 | What is left of a heap with right counts is exactly what its outside references reach in it. |
| RefCount.CountedFree | examples/rcl.c:228-237 | Freeing an object whose count is one turns the references in its fields into outside references and keeps all counts right. |
| RefCount.CountedPublish | examples/rcl.c:562-590 | Publishing an object whose fields take over outside references keeps all counts right. |
| RefCount.LastReference | examples/rcl.c:157-174 | No field points to an object whose last reference is held outside. |
| Counting.Memory.AddRef | examples/rcl.c:124-143 | One more handle, counted. |
| Counting.Memory.Release | examples/rcl.c:145-179 | Gives up one handle, ends, keeps every count equal to the references from fields, stacks, handles and the permanent one to nil, and leaves exactly the objects still reachable from outside, unchanged; nil is never disposed. Its calls nest one deep exactly if the object has another reference or no fields, never more than one per level of its value and the object itself, and exactly so many if nothing below it is shared. |
| Counting.Memory.ReleaseFields | examples/rcl.c:228-237 | The references in the fields of a dead object are released, nesting at most as deep as its value and exactly so if nothing below is shared. |
| Counting.Memory.Dispose | examples/rcl.c:166-174 | The last handle to an object goes: it leaves the heap and its fields are released, one call deeper if it has any. |
| Counting.Memory.NothingLeaks | examples/rcl.c:196-206 | In every valid state every object is reachable from the stacks, the handles or nil. |
| Counting.Memory.constructor | examples/rcl.c:188-190 | At the start only nil lives, with one reference. |
| Counting.Memory.CreateCons | examples/rcl.c:289-296 | Trades the handles to two objects for one to their pair. |
| Counting.Memory.CreateFunction | examples/rcl.c:562-590 | Trades the handle to the data for one to a function object. |
| Counting.Memory.CreateAtom | examples/rcl.c:346-373 | A handle to a new atom. |
| Counting.Memory.CreateNil | examples/rcl.c:210-218 | One more handle to nil. |
| Counting.Memory.PublishCons | examples/rcl.c:251-272 | A filled cell becomes an object whose fields take over two handles. |
| Counting.Memory.Push | examples/rcl.c:493-500 | A handle moves onto the operand stack. |
| Counting.Memory.Pop | examples/rcl.c:502-509 | The top operand becomes a handle; abort on the empty stack. |
| Counting.Memory.PushCont | examples/rcl.c:511-518 | A handle moves onto the continuation stack. |
| Counting.Memory.PopCont | examples/rcl.c:520-528 | The top continuation becomes a handle. |
| Rcl.DestructCons | examples/rcl.c:298-325 | Trades a handle to a pair for handles to its parts; abort if it is none. |
| Rcl.AssocObject | examples/rcl.c:662-771 | Consumes the handle to the list; returns a handle to what is bound, or null, or aborts on a malformed list, in the sense of `Laws.AssocMeans`; the caller's handles keep their values. |
| Rcl.ApplyObject | examples/rcl.c:621-649 | Consumes the handle to a function object and does what applying its value does, holding exactly the other handles afterwards; calls nest as deep as `Costs` says. |
| Rcl.PopApplyObject | examples/rcl.c:651-660 | Releases its data and applies the operand on top, one call deeper. |
| Rcl.EvalObject | examples/rcl.c:799-886 | Consumes its data and does what `eval` does on values, nesting as deep as `Costs` says; no handle is lost or used twice on any path. |
| Rcl.EvalPair | examples/rcl.c:831-883 | A pair is a special form with its unevaluated argument, or schedules argument, function and application; which of the two, `Laws.OrdinaryCall` and `Laws.SpecialForm` say. |
| Rcl.PrintAtomObject | examples/rcl.c:888-911 | Prints, releases its data and argument, pushes nil. |
| Rcl.QuoteObject | examples/rcl.c:913-927 | Releases the environments and its data, pushes the unevaluated part. |
| Rcl.FunObject | examples/rcl.c:960-971 | Releases its data, pushes a closure that takes over the argument. |
| Rcl.FunApplyObject | examples/rcl.c:929-958 | Takes the closure apart and schedules its body with the parameter bound; `Laws.ParameterIsBound` says what the body then sees. |
| Rcl.MapCons | examples/rcl.c:773-780 | Trades key, value and list for the extended list. |
| RclParser.ParseObject | examples/rcl.c:396-443 | The parser on unpublished cells gives a handle to an object of the value the grammar gives, and leaves no cell behind; it fails on the same inputs. |
| RclParser.AttachTail | examples/rcl.c:425-433 | A cell whose tail is known becomes an object; the other cells and their references stay. |
| RclParser.AttachHead | examples/rcl.c:419-423 | The reference to an expression moves into the innermost cell. |
| RclParser.StartPair | examples/rcl.c:436-438 | An opening parenthesis puts a new cell on the chain. |
| RclMain.Setup | examples/rcl.c:1061-1066 | Before the loop the program holds the special forms and the global variables. |
| RclMain.AddPrimitive | examples/rcl.c:790-797 | Trades a binding list for one with a built-in function in front. |
| RclMain.Expression | examples/rcl.c:1070-1098 | One expression is parsed, run and its value released, as in the session on values; the program then holds what it held. The release nests at most as deep as the value, and exactly so for a tower. |
| RclMain.RunConts | examples/rcl.c:1084-1092 | The inner loop does as many machine steps and never nests `apply` more than two deep. |
| RclMain.Interpret | examples/rcl.c:1051-1099 | On every input the whole program does what the session on values does. In every outcome all counts are right and every object is reachable from the stacks, the handles or nil, and no parser cell is left if it did not abort. The values it releases, one per finished expression, nest their releases as deep as said; calls of `apply` never nest more than two deep. |
| RclMain.DeepRelease | examples/rcl.c:30-33 | For every n, on the input that quotes n nested pairs, the program releases exactly one value, and that release nests n + 1 calls. |
| RclMain.DropsTower | examples/rcl.c:1093-1098 | The session on that input finishes one expression and drops its value, the nested pairs. |
| Nesting.TowerIsUnshared | examples/rcl.c:913-927 | When the program holds only its environments and one value of nested pairs, every pair of it has just one reference. |
| Nesting.UnsharedMeans | examples/rcl.c:145-179 | Nothing below an object is shared exactly if every object with fields that it reaches has a count of one. |
| Agreement.RunBoth | examples/rcl.c:1051-1099 | On every input the garbage-collected and the reference-counted program end the same way after printing the same; or the former has 10000 live objects, has printed a first part of what the latter prints, and the session needs as many nodes. |
| Barrier.BarrierRecord.constructor | examples/barrier.c:30-46 | Nobody is inside and the way in is open. |
| Barrier.BarrierRecord.Incoming | examples/barrier.c:82-106 | The first section of `barrier`: retry while the way out is open, else come in; the last thread opens the way out and returns at once. |
| Barrier.BarrierRecord.Outgoing | examples/barrier.c:107-127 | The second section: retry until the way out is open, then go out; the last thread closes it. |
| Barrier.RunInv | examples/barrier.c:68-130 | In every run of any number of threads the fields agree with who is inside, and the log of entries and returns is in order. |
| Barrier.NoEarlyReturn | examples/barrier.c:68-130 | Whenever a thread returns from a round, exactly n different threads have come in to that round, itself among them. |
| Barrier.NoEarlyEntry | examples/barrier.c:85-100 | Whenever a thread comes in to a round, it has not come in before, fewer than n others have, and all n threads that came in to the round before have returned from it. |
| Barrier.InStep | examples/barrier.c:30-46 | With exactly n threads, completed calls never differ by more than one. |
| Barrier.SomeoneIsReady | examples/barrier.c:68-130 | While all threads, n or more, keep calling, one of them does not spin. |
| Barrier.TurnsMakeRounds | examples/barrier.c:68-130 | A round takes exactly 2n - 1 turns that are not spinning, in every run. |
| BarrierClient.ExecuteOk | examples/barrier.c:203-440 | In every schedule and for any initial values, loop counters, registers and shared variables are those of the sequential recurrence at each thread's place. |
| BarrierClient.NoRace | examples/barrier.c:203-440 | Never can the next step of one thread change a shared variable that the next step of the other can change or depends on. |
| BarrierClient.UsesAreSteps | examples/barrier.c:203-689 | A thread is said to use a variable next exactly if its next step, in some memory, changes it or depends on it. |
| BarrierClient.StepsCommute | examples/barrier.c:203-689 | Outside the barrier it makes no difference which thread takes its step first. |
| BarrierClient.SameIteration | examples/barrier.c:454-689 | Threads that are both outside the barrier are in the same iteration, except that the first is exactly one ahead while the second has still to load the variable that tells it whether to go on. |
| BarrierClient.Outcome | examples/barrier.c:454-689 | When both threads have ended, both have looped 30 times and called the barrier 62 times, and x1, x2, y1, y2 are those of the sequential recurrence, with i zero. |
| BarrierClient.NeverStuck | examples/barrier.c:203-440 | Until both threads have ended, one of them can do more than spin. |
| BarrierClient.OnlySoManySteps | examples/barrier.c:203-440 | At most 8000 steps of any run change anything. |
| LockOrder.InsertKeeps | bin/threading.h:156-158 | A new lock between valid bounds keeps the order a strict partial order, does not change it between old locks, and is above its lower and below its upper bounds. |
| LockOrder.InsertIsLeast | bin/threading.h:156-158 | A new lock adds no more to the order than its bounds require: every strict order that has the old one and the bounds has the new one. |
| LockOrder.TopSuffices | bin/threading.h:160-162 | A lock below the top of a sorted lockset is below all of it. |
| LockOrder.RemoveSorted | bin/threading.h:164-166 | Releasing in any order keeps a lockset sorted. |
| LockOrder.RunKeeps | bin/threading.h:97-166 | In every run of any threads and locks, locksets are sorted, agree with who holds what, and a thread waits only for a lock below all it holds. |
| LockOrder.HolderCanGo | bin/threading.h:160-162 | If any lock is held, some thread that holds one is not blocked. |
| LockOrder.NoDeadlock | bin/threading.h:88-133 | In every state of every run, either nothing is held and nobody is blocked, or some lock-holding thread is not waiting or can be granted its lock. |
| LockOrder.BlockedMeans | bin/threading.h:160-162 | A thread is blocked exactly if it waits for a lock that cannot be granted, and then it can do nothing else. |
| LockOrder.NoReentry | bin/threading.h:139-141 | No thread ever waits for a lock it holds. |
| Philosophers.Obeys | examples/philosophers.c:39-47 | A philosopher's next step is allowed by the lock contracts unless it waits for a fork that is taken. |
| Philosophers.ArrivalKeeps | examples/philosophers.c:19-29 | A new philosopher, who can run at once, leaves everybody in place and order. |
| Philosophers.DineKeeps | examples/philosophers.c:31-48 | In every schedule of turns and arrivals everybody holds and waits for just the forks of its place in the loop. |
| Philosophers.SomeoneActs | examples/philosophers.c:31-48 | Whatever the schedule, whoever arrives when, some philosopher at the table can always act. |
| Philosophers.ForksAreExclusive | examples/philosophers.c:42-46 | Philosophers who eat at the same time share no fork, whoever arrived when. |
| Philosophers.MealsGoOn | examples/philosophers.c:39-47 | At least one meal is eaten for every six turns that do something, up to the start, in schedules with arrivals too. |
| Philosophers.ForksAreAllowed | examples/philosophers.c:57-70 | The lock contracts allow the locks `main` creates, whatever identities they get. |
| Philosophers.DinnerIsSeated | examples/philosophers.c:57-74 | However the creation of philosophers and their turns interleave, `main` can create each of its three, and everybody at the table keeps to the order of the forks. |
| Philosophers.GuestsCompete | examples/philosophers.c:71-73 | Of the three philosophers of `main`, each has two forks, every two compete for exactly one, and each of the three forks has exactly two users. |
| Philosophers.OneEatsAtATime | examples/philosophers.c:57-74 | Whatever the schedule, no two philosophers of `main` eat at the same time. |
| TraceLock.CellTellsOwner | examples/concurrent_cell2.c:142-157 | For every trace the protocol allows, the cell is 1 when there is an owner and 0 when there is none. |
| TraceLock.OwnerSurvives | examples/concurrent_cell2.c:159-185 | Operations of other threads within the protocol neither take the lock from a thread nor give it to it. |
| TraceLock.PrefixSmaller | examples/concurrent_cell2.c:69-79 | With increments only, what a thread reads never goes down. |
| TraceLock.IncrOnlyMeans | examples/concurrent_cell2.c:60-67 | The traces of increments only are those of operations none of which lowers the cell, whatever it holds. |
| TraceLock.PrefixTrans | examples/concurrent_cell2.c:4-11 | Being followed only by operations of other threads is transitive. |
| TraceLock.AtomicInt.Load | examples/concurrent_cell2.c:45-47 | The value the trace executes to. |
| TraceLock.AtomicInt.Decrement | examples/concurrent_cell2.c:41-43 | The trace gets a decrement and the cell follows it. |
| TraceLock.AtomicInt.CompareAndSwap | examples/concurrent_cell2.c:55-57 | The trace gets a compare-and-swap, the cell follows it, and the old value is returned. |
| TraceLock.AtomicInt.LoadTwice | examples/concurrent_cell2.c:82-94 | A later load is not smaller, whatever other threads did between, if all may only increment. |
| TraceLock.AtomicInt.TryAcquire | examples/concurrent_cell2.c:120-139 | One turn of `acquire` keeps the protocol and leaves the loop, as the owner, exactly if there was none. |
| TraceLock.AtomicInt.Release | examples/concurrent_cell2.c:188-205 | A thread that was the owner when it last looked may decrement, after which there is no owner and the cell is 0. |
| TraceLock.MutualExclusion | examples/concurrent_cell2.c:116-205 | In every run at most one thread is between `acquire` and `release`, the protocol is kept, and a thread owns the lock exactly if it did when it last looked. |
| TraceLock.TrySucceeds | examples/concurrent_cell2.c:120-139 | In every run a try succeeds exactly when nobody holds the lock. |
| TraceLock.TurnsGoRound | examples/concurrent_cell2.c:120-205 | In every run a thread starts to acquire without touching the cell, tries by one compare-and-swap at a time, and once it holds the lock its next turn releases it: the cell is 0 and nobody holds it; no turn moves another thread. |
| Composite.Tree.TreeAdd | examples/composite5.c:213-243 | Adding a first child to any node keeps every cached count equal to the size of its subtree; the counts on the way up go up by one and no other changes; the new node is linked in front of the old children and no other link changes. |
| Composite.Tree.AddToCount | examples/composite5.c:159-211 | The upward repair ends and raises exactly the counts on the way to the root. |
| Composite.Tree.TreeGetParent | examples/composite5.c:245-266 | The next node on the way up, or null for the root. |
| Composite.Tree.constructor | examples/composite5.c:138-154 | A tree of one node. |
| Composite.Tree.CreateNode | examples/composite5.c:113-136 | A fresh node without children, with count one. |
| Composite.Tree.CountsAreRight | examples/composite5.c:88-103 | In every state a cached count is the number of nodes at or below the node. |
| Composite.AncestorsContain | examples/composite5.c:159-211 | The nodes on the way up from a node are exactly those it is below. |
| Composite.InsertRep | examples/composite5.c:213-243 | Linking a leaf and raising the counts on the way up represents the tree with the leaf inserted. |
| CheckedComposite.Store.FixupAncestors | examples/composite4.c:133-163 | Recomputes the counts of all ancestors and of nothing else; it aborts exactly if some ancestor's count would exceed INT_MAX, that is, if the root's would. |
| CheckedComposite.Store.TreeAdd | examples/composite4.c:165-233 | Adding a leaf on a free side of any node keeps all counts right, changes only that link and only ancestors' counts; it aborts exactly if the tree already has 2147483647 nodes. |
| CheckedComposite.Store.CountsAreRight | examples/composite4.c:120-131 | In every state the cached count of a node is the number of nodes of its subtree. |
| CheckedComposite.SpineIsAbove | examples/composite4.c:133-163 | The nodes whose counts are repaired are those at the places further up the path. |
| CheckedComposite.Store.TreeGetParent | examples/composite4.c:235-266 | The parent in the context of the node, null at the root. |
| CheckedComposite.Store.SubtreeGetCount | examples/composite4.c:120-131 | The number of nodes of a subtree, zero for the empty one. |
| CheckedComposite.Store.constructor | examples/composite4.c:108-118 | A tree of one node. |
| CheckedComposite.CombineAt | examples/composite4.c:368-399 | Taking a tree apart at a path and combining the parts gives the tree. |
| CheckedComposite.Refocus | examples/composite4.c:360-399 | Combining a context with a subtree and going back along the context's path finds the same parts. |
| CheckedComposite.CombineParts | examples/composite4.c:312-320 | Nodes and counts of a combined tree are those of its parts, and it has no node twice exactly if the parts have none. |
| CheckedComposite.GoToRoot | examples/composite4.c:337-358 | What represents context and subtree represents the combined tree. |
| CheckedComposite.GoToDescendant | examples/composite4.c:401-438 | What represents a tree represents the context and the subtree at any of its nodes. |
| InsertionSort.List.SortInPlace | examples/insertion_sort.c:137-266 | The list is relinked in ascending order of the values, with the same nodes, equal values in reverse of the input order, and no other node touched; it ends. |
| InsertionSort.List.FindPlace | examples/insertion_sort.c:154-218 | The inner loop finds the place before the first sorted node that is not smaller. |
| InsertionSort.List.Relink | examples/insertion_sort.c:228-235 | The three stores move the first unsorted node to its place. |
| InsertionSort.SortSorts | examples/insertion_sort.c:137-266 | The sorted sequence is a permutation of the input, ascending, with equal values in reverse of the input order. |
| InsertionSort.InsertOrdered | examples/insertion_sort.c:157-197 | Inserting a later node before the first that is not smaller keeps that order. |
| InsertionSort.List.Compare | examples/insertion_sort.c:122-133 | Negative, zero or positive as the first value is smaller, equal or greater. |

## Left out

- Tokenizer, string buffers, character input and error messages: tokens come as a sequence, aborting is an outcome, and only `print_atom` adds to the output.
- Failure of `malloc`: an address not in use always exists; the collector's limit of 10000 objects is modelled.
- Gcl.Interpret: a run of an expression beyond any budget is not one statement; every finite number of turns is covered.
- RclMain.Interpret: the same budget of turns per expression.
- The interpreter copy inside `examples/gcl0.c`: only its marker differs from that of `examples/gcl.c`.
- The linked cells of the two stacks of `examples/rcl.c`: each stack is a sequence.
- Barrier.RunInv: that a mutex excludes other threads is taken as given, one turn being one section under it; fairness of the scheduler is not modelled.
- BarrierClient.Outcome: machine-integer overflow of the recurrence is not modelled.
- Composite.Tree.TreeAdd: overflow of the counts is not modelled, because the code does not check it.
- `lock_dispose`, `barrier_dispose`, `tree_dispose`, joining threads: they only give memory back.
- Mutexes, condition variables and ghost critical sections of `bin/threading.h`: contracts over code that is not part of this model.
- Separation-logic machinery of the annotations: fractions, boxes, predicate families, leak checks.
- The verifier itself and the other examples.
