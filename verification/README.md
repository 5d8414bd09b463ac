# The libpcap filter compiler and the libev event loop

This project models the two vendored C libraries of the repository that carry its hard logic, and proves what they are
for. `jni/libpcap` compiles a filter expression to a program for a small machine and runs it on packets; `jni/libev`
dispatches timers, descriptors and wake-ups from other threads to callbacks.

The source works by changing objects in place, and so does the model: blocks with `jt` and `jf` pointers, a register
table, the heap array with its back-indices, the pending queues, the poll array and its index are fields of classes, and
the C functions are methods with the loops of the source. Beside each stands what it promises, as functions and predicates
on values. Wake-up between threads is a state machine with one step for each access to a shared flag.

## The filter compiler

* `Words`, `Bpf`: 32-bit arithmetic on unbounded integers, the statements of the machine, their meaning and encoding.
  `WordLaws` and `Opcodes` fix what these are by bits, by the division equation, and by the numbers in `pcap/bpf.h`.
* `Conditions`, `BlockGraph`: the boolean connectives. While a graph is under construction its unresolved branches are
  linked into two lists through the branches themselves, and the `sense` bit of the top block says which list is which. A
  test has three outcomes, since a load outside the packet or a division by zero rejects at once, even under a `not`.
* `Codegen`, `FieldTests`, `Protocols`, `Arithmetic`, `FilterCompiler`: register allocation, field comparisons, protocol
  checks, arithmetic, relations, and whole filters on Ethernet, against a meaning that speaks of the packet alone.
* `Linearize`, `Interpreter`, `Program`: the conversion of the graph to a flat program with long jumps, the machine, and the
  whole way from a filter to the decision about a packet.
* `Validator`: what the static check ensures. `OffsetShapes`: constant and variable offsets. `IndexChecks`: which
  implied protocol checks are made. `ConstantChecks`: which constant operands are refused. `Wlan`: address tests on
  IEEE 802.11. `NetPrefix`: network numbers and prefixes.
* `Octets`: what the abbreviations, items and network tests say in octets of the packet, with the offsets and numbers of
  the protocols themselves, and what a dotted number says of an address.

The model follows the code where it and its description differ, and says exactly when they agree:

* The manual (`jni/libpcap/pcap-filter.manmisc.in:858-866`) says that the check for unfragmented datagrams is implicitly
  applied to the `tcp` and `udp` index operations. For a binary operator the generator keeps the checks of the left
  operand only, so in `1 + tcp[0] = 0` nothing is checked. `IndexChecks.ChecksSufficeIff` says for which relations every
  index is guarded.
* `ether host` on 802.11 rejects a frame whose fourth address is cut off even if its destination address matches
  (`Wlan.HostTold`, `Wlan.CutOffIsMissed`).
* The header comment of the validator (`jni/libpcap/bpf_filter.c:398-403`) asks that each jump be forward. The comment at
  the test (`jni/libpcap/bpf_filter.c:494-496`) says that backward branches are not checked, for the protocol-chain
  operation, and they are indeed let through. An accepted program has only forward jumps exactly if no unconditional jump
  has a negative offset (`Validator.ForwardIff`). Accepted programs are safe in any case, constant shifts above 31
  apart; those with only forward jumps end, and one that jumps back need not (`Validator.AcceptedButEndless`).
* The constant checks of the arithmetic generator look at the first statement of the right operand, which need not be the
  whole operand: `6 / (0 + 2)` is refused as a division by zero. `ConstantChecks.CheckIsRightIff` says for which constant
  operands exactly the pointless operations are refused.

## The event loop

* `Wakeup`: `ev_async_send` and `ev_feed_signal` in any number of threads against the loop; both share the pipe and the
  note of a skipped write. `Watching`: what each step changes, item by item, and that it changes nothing else.
  `EarlySends`: the manual allows `ev_async_send` while the watcher is active
  (`jni/libev/ev.pod:3366-3368`). A send before the first start is outside that; it can leave a flag stuck, after which
  correct sends are lost, and it can make an assertion in `ev_run` fail. `EarlySends.SafeIffCalm` gives the exact
  condition on the state at the first start, senders still in their calls and a pending event of the pipe included.
* `TimerHeap`, `EventLog`, `PendingQueues`, `Transcript`, `Expiry`, `EventLoop`: the 4-ary timer heap, the priority queues
  which callbacks may refill, and whole runs of the loop. A ghost history of what was fed, cleared and invoked is what
  dispatch is specified against: which watcher may be invoked next is a function of the history, not of the queues.
* `Descriptors`: lazy changes of descriptors and the poll array with its swap-remove index.
* `Waits`: how long an iteration blocks, and the recalculation of periodic watchers, over the reals. Intervals below
  `MIN_INTERVAL` are counted in steps of `MIN_INTERVAL`, which loses the schedule unless they divide it.

## Model

| member | source | states |
|---|---|---|
| Program.FilterPacket | jni/libpcap/pcap.c:4155-4164 | compiling a filter and running the program on a packet keeps the packet, with the snapshot length, exactly if the filter's meaning is true of it; it refuses exactly the filters that do not compile, runs out of memory only below a bound computed from the filter, and never ends in a state that C leaves undefined |
| Program.CompileProgram | jni/libpcap/gencode.c:827-846 | the flat program, within as many steps as it has instructions and whatever the scratch memory held, returns the snapshot length where the filter is true, 0 where it is false, and rejects where a test aborts, and the validator accepts it; a filter gets a program or is short of memory if and only if its sizes, constants and networks are admitted and its register need is at most 16, and it is short of memory only below a bound computed from the filter |
| Program.CompileNetProgram | jni/libpcap/gencode.c:6936-6991 | the same end to end for a network filter: refused exactly when the number, the mask or the protocol is not admitted, and otherwise nothing but memory below a fixed bound is in the way |
| Program.CompileHostProgram | jni/libpcap/gencode.c:4273-4689 | the same end to end for a host filter on 802.11; only memory below a bound computed from the test is in the way |
| Program.RunsAsMeant | jni/libpcap/gencode.c:840-846 | a program that runs as its graph does decides as the graph means |
| Program.NeverUndefined | jni/libpcap/gencode.c:7714-7762 | no filter's meaning is to stop at a statement that C leaves undefined, so no compiled filter gets to one |
| Linearize.Emit | jni/libpcap/optimize.c:2871-2912 | for every register state and packet the flat program ends as the graph does; if the graph's statements are defined, the validator accepts it; the conversion fails only when memory is smaller than the reachable blocks with all their long jumps |
| Linearize.IcodeToFcode | jni/libpcap/optimize.c:2871-2912 | the retry loop ends, and then every reachable block stands in the program at its offset with its branches reaching their targets, the root at 0 |
| Linearize.ConvertCode | jni/libpcap/optimize.c:2684-2850 | a pass places exactly the blocks it reaches and has not yet placed, using exactly the instructions counted for them, and keeps those already placed; or it fails having made one block one instruction longer |
| Linearize.PlaceBlock | jni/libpcap/optimize.c:2701-2848 | one block is written below the tail, and every block placed before it stands as it did |
| Linearize.FillBlock | jni/libpcap/optimize.c:2720-2848 | only the block's own room is written: its statements, its last one, branches that lead to the offsets of its targets, and behind it only long jumps into the program |
| Linearize.PutBranches | jni/libpcap/optimize.c:2807-2847 | a branch reaches its target directly or by one inserted jump; a target 256 or more away without room for the jump makes it fail and ask for exactly one more instruction |
| Linearize.CountStmts | jni/libpcap/optimize.c:2498-2508 | marks exactly what p reaches and counts each block once |
| Linearize.Visit | jni/libpcap/optimize.c:2498-2508 | a visit to a block and its branches, in either order, covers what the block reaches, and the parts counted add up without counting a shared block twice |
| Linearize.ProgramRunsGraph | jni/libpcap/optimize.c:2684-2850 | from the offset of any placed block the machine ends as the graph does from that block, within the number of instructions from there to the end |
| Linearize.BranchRuns | jni/libpcap/optimize.c:2807-2847 | from a jump the machine gets to the branch that is taken in one step or two, no more than the distance |
| Linearize.StmtsRun | jni/libpcap/optimize.c:2722-2793 | the machine runs a block's encoded statements as the statement list means |
| Linearize.CompiledConverts | jni/libpcap/gencode.c:942-997 | every graph that finish_parse leaves is acyclic with all branches resolved, and so can be converted |
| Linearize.CompletePasses | jni/libpcap/optimize.c:2936-2950 | every program the conversion completes from defined statements passes the static check that installing it makes: all jumps inside, nothing unfilled, and a return at the end |
| Linearize.CompiledIsWithin | jni/libpcap/optimize.c:2490-2508 | a finished graph never takes more instructions than its tests, a long jump for each branch, and the two returns |
| Conditions.WalkIsEval | jni/libpcap/gencode.c:999-1024 | following short-circuit branches decides what left-to-right evaluation decides, registers included; an abort passes every operator |
| Conditions.SlotsGoForward | jni/libpcap/gencode.c:999-1024 | every resolved branch leads to a later test: the graph has no cycle |
| Conditions.OpenSlots | jni/libpcap/gencode.c:902-940 | a branch is unresolved with a value exactly if its block is on the list for that value and the branch is the block's link there |
| Conditions.OnExactlyOneList | jni/libpcap/gencode.c:902-940 | each unresolved branch is on exactly one of the two lists, once |
| Conditions.ExitsGoDown | jni/libpcap/gencode.c:925-940 | each list starts at the top block and never visits a block twice, so it is finite |
| Conditions.PrefixRunsFirst | jni/libpcap/gencode.c:953-973 | statements inserted before the first test run once, before everything else, and may abort the whole filter |
| BlockGraph.Backpatch | jni/libpcap/gencode.c:908-923 | sets the link of every block on the list and changes no other branch |
| BlockGraph.Resolve | jni/libpcap/gencode.c:908-923 | backpatching an expression's list resolves exactly the branches open with that value |
| BlockGraph.Merge | jni/libpcap/gencode.c:929-940 | the list now continues with b1 instead of ending, and no branch outside the list has changed |
| BlockGraph.GenNot | jni/libpcap/gencode.c:1020-1024 | the two lists are exchanged: the block stands for the negation over the same tests |
| BlockGraph.GenAnd | jni/libpcap/gencode.c:999-1008 | the top block stands for the conjunction, over the tests of both in order, with the list invariant kept |
| BlockGraph.GenOr | jni/libpcap/gencode.c:1010-1018 | the top block stands for the disjunction, over the tests of both in order, with the list invariant kept |
| BlockGraph.FinishParse | jni/libpcap/gencode.c:942-997 | with a prologue and an optional link check in front, no branch is left open: each leads to its test or to one of the two return blocks |
| BlockGraph.RunIsWalk | jni/libpcap/gencode.c:942-997 | running the finished heap graph from any test follows the jump table |
| BlockGraph.GraphDecidesExpression | jni/libpcap/gencode.c:942-1024 | the finished graph returns the snapshot length exactly when left-to-right evaluation is true, 0 when it is false, and rejects when a test aborts |
| Codegen.CompilerState.AllocReg | jni/libpcap/gencode.c:7778-7792 | gives the first register that is free, from the last one given on and around, and takes only that one; or fails exactly when none is free |
| Codegen.CompilerState.FreeReg | jni/libpcap/gencode.c:7799-7802 | gives back exactly the register named |
| Codegen.CompilerState.GenAbsOffsetVarpart | jni/libpcap/gencode.c:3003-3031 | a variable offset's register is allocated at first use and kept; the other offsets do not change |
| Codegen.CompilerState.GenNcmp | jni/libpcap/gencode.c:1110-1132 | the block loads, masks and compares with the jump and sense asked for; fails only for want of an offset register |
| FieldTests.CompareMeaning | jni/libpcap/gencode.c:1110-1132 | the test is the comparison of the masked big-endian field, negated for a reversed ordering, and aborts exactly when the field is not wholly captured |
| FieldTests.GenBcmp | jni/libpcap/gencode.c:1068-1102 | the chain of word, halfword and byte tests accepts exactly when all bytes are captured and equal; its loads are in an order that aborts whenever the field is cut off |
| FieldTests.TestsBoth | jni/libpcap/gencode.c:1075-1100 | testing the rest of a field before its front tests the whole field |
| Protocols.TranDecides | jni/libpcap/gencode.c:5298-5450 | the protocol abbreviations decide what their names say over IPv4 and, where they look there, over IPv6 with at most a fragment header |
| Octets.NetOnOctets | jni/libpcap/ethertype.h:38-101 | each network protocol is its two octets of Ethernet type; only a frame cut off before them is rejected |
| Octets.TranOnOctets | jni/libpcap/gencode.c:5298-5450 | each transport protocol is its number in octet 23 of IPv4, or for four of them in octet 20 of IPv6, or in octet 54 behind a fragment header |
| Protocols.FragDecides | jni/libpcap/gencode.c:5551-5564 | the fragment test is true exactly of a fragment offset of 0 |
| Octets.FragmentOnOctets | jni/libpcap/gencode.c:5551-5564 | a first fragment has the low five bits of octet 20 and octet 21 all zero |
| Protocols.GenTran | jni/libpcap/gencode.c:5298-5450 | builds the blocks of the abbreviation that TranDecides is about |
| Arithmetic.GenLoadi | jni/libpcap/gencode.c:7645-7664 | leaves the constant in a register of its own; fails exactly when no register is free |
| Arithmetic.GenLoadlen | jni/libpcap/gencode.c:7621-7643 | leaves the packet's length in a register of its own; fails exactly when no register is free |
| Arithmetic.GenLoad | jni/libpcap/gencode.c:7272-7502 | the item at the computed offset is in a new register, the old one is free again, and the layer's protocol check is added; fails for want of a register exactly when none was free |
| Arithmetic.GenNeg | jni/libpcap/gencode.c:7684-7707 | the register holds the negated value modulo 2^32 and no other register in use has changed |
| Arithmetic.GenArth | jni/libpcap/gencode.c:7714-7762 | refused exactly when the first statement of the right operand is a constant that the operator does not take; otherwise the result of the operation on both values is in a register, both operands' registers are free but for it, and only the left operand's check is kept |
| ConstantChecks.PointlessIff | jni/libpcap/gencode.c:7735-7744 | an operation gives nothing for any left operand and packet (no value, or only 0 for a shift) if and only if its right operand has no value, is 0, or for a shift is above 31, on every packet |
| ConstantChecks.PointlessConstant | jni/libpcap/gencode.c:7735-7744 | with a right operand made of numbers that is decided by its one value, the same on every packet |
| ConstantChecks.CheckIsRightIff | jni/libpcap/gencode.c:7735-7744 | for such operands the check refuses exactly the pointless operations if and only if the first number in the operand and the operand's value are both unsuitable or both not |
| ConstantChecks.LiteralsAreJudgedRight | jni/libpcap/gencode.c:7735-7744 | so for a literal number the check is right |
| ConstantChecks.JudgedWrong | jni/libpcap/gencode.c:7735-7744 | it errs both ways on other constants: one refused that has a value for every packet, one let through that never has |
| Arithmetic.BinaryComputes | jni/libpcap/gencode.c:7746-7760 | the operands' code, one after the other, then the operation, leaves the value modulo 2^32 or rejects on a zero divisor, and does not touch registers in use |
| Arithmetic.LoadComputes | jni/libpcap/gencode.c:7320-7370 | the load's code leaves the item at the computed offset of the layer, or rejects where it is not captured |
| Octets.ItemOnOctets | jni/libpcap/gencode.c:7329-7428 | an item is the number its one, two or four octets make, counted from the frame or from octet 14 |
| Octets.TranItemOnOctets | jni/libpcap/gencode.c:7430-7502 | behind the IPv4 header it is counted from octet 14 and four times the low half of that octet |
| FilterCompiler.GenExpr | jni/libpcap/gencode.c:7272-7802 | an expression compiles if and only if all its sizes are supported, no constant is refused, and its register need is met; then its code computes its value or rejects, in one register, and writes no register that was in use |
| FilterCompiler.GuardDecides | jni/libpcap/gencode.c:7415-7500 | the protocol checks that an expression carries let through exactly the packets its guard means |
| FilterCompiler.RelationTestDecides | jni/libpcap/gencode.c:7562-7604 | the jump is on the true unsigned comparison of the two values |
| FilterCompiler.GenRelation | jni/libpcap/gencode.c:7562-7604 | both registers are given back, and the block decides the comparison behind the checks of its operands |
| FilterCompiler.GenFilter | jni/libpcap/grammar.y.in:404-481 | for any nesting of and, or, not over relations, protocols, networks and lengths: it compiles if and only if sizes, constants, networks and registers allow, and then the block decides the filter's meaning for every packet, and every register is given back |
| FilterCompiler.Compile | jni/libpcap/gencode.c:942-997 | the finished graph of a filter decides its meaning for every packet and initial registers, and its size has a bound computed from the filter |
| IndexChecks.CheckIsOfAll | jni/libpcap/gencode.c:7415-7500 | the check that is generated passes exactly the packets of the layers it is about |
| IndexChecks.ChecksSufficeIff | jni/libpcap/pcap-filter.manmisc.in:858-866 | the checks of a relation's operands let through only packets of every layer they index if and only if each of these layers follows from those that are checked |
| IndexChecks.ImpliedHolds | jni/libpcap/gencode.c:7746-7760 | a layer that follows from the checked ones holds of every packet that passes |
| IndexChecks.NotImpliedFails | jni/libpcap/gencode.c:7746-7760 | for a layer that does not follow, some packet passes the checks and is not of that layer |
| IndexChecks.RightOperandIsUnchecked | jni/libpcap/gencode.c:7746-7760 | an index in a right operand alone goes unchecked |
| Bpf.DecodeEncode | jni/libpcap/bpf_filter.c:113-385 | an encoded statement is the one the interpreter's switch executes |
| Bpf.FieldIsOctets | jni/libpcap/extract.h:248-252 | a field of each size is the number that its octets make, first one highest |
| Opcodes.StepsByLabel | jni/libpcap/pcap/bpf.h:137-227 | every instruction, by the number of its opcode, does what the label of that number does: all 49 labels, with their arithmetic, bounds, jumps and errors; any other number aborts |
| WordLaws.BitwiseByBits | jni/libpcap/bpf_filter.c:301-311 | AND, OR and exclusive OR work on each bit by itself |
| WordLaws.SameBits | jni/libpcap/bpf_filter.c:301-311 | and the bits determine the number |
| WordLaws.LeftShiftByBits | jni/libpcap/bpf_filter.c:313-318 | shifting left moves each bit up and drops those leaving the word; by 32 or more nothing is left |
| WordLaws.RightShiftByBits | jni/libpcap/bpf_filter.c:320-325 | shifting right moves each bit down; by 32 or more nothing is left |
| WordLaws.BitIsDigit | jni/libpcap/bpf_filter.c:320-325 | a bit is a digit in base two |
| WordLaws.SumAndDifference | jni/libpcap/bpf_filter.c:277-283 | sums and differences are taken modulo 2^32, and undo each other |
| WordLaws.ProductModulo | jni/libpcap/bpf_filter.c:285-287 | the product is short of the true one by a multiple of 2^32 |
| WordLaws.QuotientAndRemainder | jni/libpcap/bpf_filter.c:289-299 | quotient and remainder meet the division equation, the remainder being less than the divisor |
| WordLaws.NegationCancels | jni/libpcap/bpf_filter.c:367-378 | negation gives what comes to 0 modulo 2^32 with the number |
| WordLaws.SetMeansCommonBit | jni/libpcap/bpf_filter.c:258-260 | the bit test succeeds exactly if some bit is set in both operands |
| Interpreter.Machine.LoadAbs | jni/libpcap/bpf_filter.c:121-150 | the unsigned bounds tests agree with unbounded integers, and what is loaded is the number that the four, two or one octets make |
| Interpreter.Machine.LoadInd | jni/libpcap/bpf_filter.c:160-199 | the wrapping sum and the bounds tests of each size together agree with unbounded integers, and the octets behind the true sum are loaded |
| Interpreter.PcapFilter | jni/libpcap/bpf_filter.c:92-388 | the C loop, instruction by instruction, is the step relation run for the given number of steps |
| Interpreter.SnapshotMonotone | jni/libpcap/bpf_filter.c:121-211 | a run that fails no bounds check goes the same way on every longer capture |
| Opcodes.AcceptedIff | jni/libpcap/bpf_filter.c:408-530 | an instruction that the interpreter knows passes if and only if its memory index is below 16, it divides by no constant zero, and its jumps stay inside |
| Validator.ValidateFilter | jni/libpcap/bpf_filter.c:408-530 | accepts exactly the programs whose every instruction passes its test and whose last one is a return |
| Validator.StepInside | jni/libpcap/bpf_filter.c:408-530 | a step of an accepted program stays inside it, wrapped and backward jumps included, uses no bad memory index and no zero constant divisor |
| Validator.ValidatedIsSafe | jni/libpcap/bpf_filter.c:408-530 | so does every run of any length |
| Validator.ForwardIff | jni/libpcap/bpf_filter.c:398-403 | every jump of an accepted program goes forward if and only if no unconditional jump has a negative offset |
| Validator.ForwardTerminates | jni/libpcap/bpf_filter.c:485-510 | without negative jumps a run ends within as many steps as there are instructions |
| Validator.AcceptedRunEnds | jni/libpcap/bpf_filter.c:408-530 | the whole run of such a program returns, aborts, or rejects for a packet bound or a zero divisor |
| Validator.AcceptedButEndless | jni/libpcap/bpf_filter.c:494-505 | a program jumping back to itself is accepted and never ends |
| OffsetShapes.LayerReads | jni/libpcap/gencode.c:1785-1823 | each kind of load reads at the value in the offset register plus the layer's constant and the offset; only the network layer adds the length of what is in front of it |
| OffsetShapes.WlanNetworkLayer | jni/libpcap/gencode.c:1341-1365 | on 802.11 the network layer is read eight octets behind the link header, and the LLC header right there |
| OffsetShapes.LoadShapesAgree | jni/libpcap/gencode.c:1731-1766 | with the register holding v, the variable-offset load reads what the constant-offset load reads with its constant raised by v, if and only if it is not the case that the raised sum alone wraps and the wrapped field is in the packet |
| OffsetShapes.TransportShapesAgree | jni/libpcap/gencode.c:1825-1848 | for loads behind the IPv4 header, the two shapes agree if and only if it is not the case that the header's sum wraps in one alone or the field's sums wrap differently, and the field so reached is in the packet |
| OffsetShapes.TransportShapesAgreeUnwrapped | jni/libpcap/gencode.c:1825-1848 | so they agree wherever no sum exceeds 2^32 - 1 |
| OffsetShapes.HeaderLengthCode | jni/libpcap/gencode.c:1862-1914 | either shape leaves in X the IPv4 header length of section 3.1 of RFC 791 plus the variable part, as a 32-bit sum, or rejects if the header's first octet is not captured |
| OffsetShapes.WrappedShapesDiffer | jni/libpcap/gencode.c:1731-1766 | that case occurs |
| Wlan.GenWlanhostop | jni/libpcap/gencode.c:4288-4565 | the tree of flag and address tests that is built, for each direction |
| Wlan.SourceTold | jni/libpcap/gencode.c:4288-4440 | the source test looks exactly where section 9.3.2.1 of IEEE Std 802.11-2016 puts the source address |
| Wlan.DestinationTold | jni/libpcap/gencode.c:4442-4552 | the destination test looks exactly where it puts the destination address |
| Wlan.HostTold | jni/libpcap/gencode.c:4288-4565 | a frame is accepted exactly if the wanted address field is there and equal, but for the cut-off case |
| Wlan.CutOffIsMissed | jni/libpcap/gencode.c:4560-4565 | a frame whose destination matches but whose fourth address is cut off is rejected |
| Wlan.CompileHost | jni/libpcap/gencode.c:4288-4565 | the finished graph accepts exactly the frames that are told true |
| NetPrefix.Atoin | jni/libpcap/nametoaddr.c:659-686 | fails exactly if a component exceeds 255; otherwise 8 bits for each component, which are its octets in order |
| NetPrefix.ReadNumber | jni/libpcap/nametoaddr.c:668-678 | one component is read to its end, or given up once it cannot end at or below 255 |
| NetPrefix.MaskComparesPrefix | jni/libpcap/gencode.c:3962-4024 | masking and comparing is agreement of the first bits (section 3.1 of RFC 4632) |
| NetPrefix.OutsideMask | jni/libpcap/gencode.c:6949-6984 | the check for bits outside the mask is the remainder beyond the prefix |
| NetPrefix.NetFilterDecides | jni/libpcap/gencode.c:4899-4936 | the test built for the qualifiers decides them over IPv4, ARP and RARP |
| Octets.NetworkOnOctets | jni/libpcap/gencode.c:4899-4936 | for each protocol, all of them, and each direction: the test is true exactly of packets of that type whose masked octets are the number; 26 and 30 for IPv4, 28 and 38 for ARP and RARP |
| Octets.PrefixBits | jni/libpcap/gencode.c:3962-4024 | with a prefix length, that is agreement of the first bits |
| Octets.DottedOnOctets | jni/libpcap/gencode.c:6957-6966 | with a dotted mask, it is agreement octet by octet under the mask |
| Octets.DottedIsGood | jni/libpcap/gencode.c:6957-6966 | a dotted mask is accepted exactly if no octet of the number has a bit outside that of the mask |
| Octets.PromotedOctets | jni/libpcap/gencode.c:6952-6953 | a short number is moved to the high end: its components are the first octets, and zeros follow |
| Octets.WholeOctets | jni/libpcap/gencode.c:6936-6984 | a number with a prefix of as many octets as it has components is accepted, and matches exactly the IPv4 addresses that start with these |
| Octets.AddressOnOctets | jni/libpcap/gencode.c:6936-6984 | so for one to four octets as they are written in decimal with dots |
| Octets.ComponentsJoin | jni/libpcap/nametoaddr.c:659-686 | taking a number apart at its dots loses nothing |
| Octets.DecimalReads | jni/libpcap/nametoaddr.c:668-678 | reading a number's decimal digits gives the number |
| NetPrefix.SourceNetIsPrefix | jni/libpcap/gencode.c:3962-4024 | `ip src net` is true exactly of IPv4 packets whose captured source address has the first bits of the number |
| NetPrefix.GenMcode | jni/libpcap/gencode.c:6936-6984 | refuses exactly bad components, a mask length above 32, set bits outside the mask, and IPv6; otherwise the test of the shifted number and mask |
| NetPrefix.GoodPrefix | jni/libpcap/gencode.c:6949-6980 | with a prefix length, the demand is that all components fit and no bit is set beyond the prefix |
| NetPrefix.NetworkDecides | jni/libpcap/gencode.c:4899-4936 | the test of an admitted network decides what the network means, for every packet and register state |
| Wakeup.InvStep | jni/libev/ev.c:2426-2539 | each access to a shared flag, by the loop or any sender of a signal or to a watcher, keeps the invariant |
| Wakeup.InvRun | jni/libev/ev.c:2426-2539 | so does every interleaving in which nobody sends before the first start |
| Wakeup.NoLostWakeup | jni/libev/ev.c:2426-2472 | whenever the loop is blocked in the poll, no sender is inside its call and a watched signal or active async watcher is set, the pipe is not empty |
| Wakeup.NothingOwedInSleep | jni/libev/ev.c:2476-2539 | when the loop sleeps on an empty pipe with no sender in its call, every send to something watched has been answered by a later callback |
| Wakeup.LoopDelivers | jni/libev/ev.c:2476-2539 | woken by the byte and left alone, the loop reaches a state where every signal and async watcher that is owed a callback is queued |
| Wakeup.CallbackReturns | jni/libev/ev.c:2476-2539 | the pipe's callback, left alone, scans signals and async watchers and comes to its end with both flags down |
| Watching.WatchedChanges | jni/libev/ev.c:4862-4900 | stopping an async watcher takes off exactly that one, starting adds exactly one, and no other step changes what is watched |
| Watching.ListedOnceRun | jni/libev/ev.c:4862-4900 | in every run nothing is on a list twice |
| Watching.SentChanges | jni/libev/ev.c:2476-2539 | an item is set by a sender's first step alone, and taken down only by the scan or by starting its watcher |
| Watching.QueuedChanges | jni/libev/ev.c:2476-2539 | an item is queued by the scan alone, and leaves the queue only when invoked or stopped |
| Watching.OwedChanges | jni/libev/ev.c:4902-4907 | a send stays owed until a callback begins or its watcher is started or stopped |
| Watching.SendersChange | jni/libev/ev.c:2426-2472 | any thread may call at any time; a call takes its steps in order, returns at the three places it can, and is moved by nobody else |
| Watching.FlagsChange | jni/libev/ev.c:2426-2539 | a channel's flag goes up in a call for it and down in the callback, and no other step touches it |
| Watching.SkippedChanges | jni/libev/ev.c:2426-2539 | likewise the note of a skipped write |
| Watching.PipeChanges | jni/libev/ev.c:2446-2501 | only a sender's write adds a byte, if there is a pipe with room, and only the callback takes up to four |
| Watching.CallReturns | jni/libev/ev.c:2426-2472 | a sender left to itself returns, with its item set |
| Watching.SendEndsSleep | jni/libev/ev.c:2426-2472 | whatever is watched, one send from one more thread gives a sleeping loop its byte |
| EarlySends.SkippedOnlyWhenOpen | jni/libev/ev.c:3644-3664 | without early sends the assertion there holds: a skipped write is only seen with the pipe watcher active |
| EarlySends.EarlySendTripsAssertion | jni/libev/ev.c:3644-3664 | with one, some run makes it fail |
| EarlySends.SafeIffCalm | jni/libev/ev.c:4862-4907 | whatever senders are doing when the first start comes, and whether or not the loop has noticed a skipped write, all later runs are free of lost wake-ups if and only if nobody is about to put a flag up and, if one is up, a skipped write has been noticed or is noted and nobody will take that back |
| EarlySends.FirstStart | jni/libev/ev.c:4862-4907 | this applies to the first start after any history of a new loop, with early sends in any number and at any stage |
| EarlySends.BeforeStartRun | jni/libev/ev.c:2426-2539 | until the first start, whatever happens, nothing is watched or queued and there is no pipe |
| EarlySends.NoticedIsCalm | jni/libev/ev.c:3655-3664 | a first start with the pipe watcher's event pending, a flag up and a sender in its call does occur, and is safe |
| EarlySends.UncalmLoses | jni/libev/ev.c:2426-2472 | from any other state some run loses a wake-up: the loop sleeps on an empty pipe with a set watcher |
| EarlySends.SenderEnds | jni/libev/ev.c:2426-2472 | any sender can run to its end without a pipe while the loop is in the poll, and it leaves a flag stuck if it still had to raise one or to take back the note for one |
| EarlySends.SkippedIsHeard | jni/libev/ev.c:2476-2539 | when a skipped write is noted, an iteration that no sender disturbs takes all flags down, without a byte |
| EarlySends.EarlySendUncalm | jni/libev/ev.c:4902-4907 | a send in progress, two steps after the start of a new loop, is enough for such a state |
| EarlySends.EarlySendSticks | jni/libev/ev.c:2426-2472 | so is one that has returned |
| TimerHeap.DownHeap | jni/libev/ev.c:2240-2281 | sinking restores the order and keeps the nodes, their back-indices and cached keys |
| TimerHeap.UpHeap | jni/libev/ev.c:2320-2339 | rising restores the order and keeps the nodes, their back-indices and cached keys |
| TimerHeap.AdjustHeap | jni/libev/ev.c:2342-2349 | whichever way one node's key moved, the heap is in order again |
| TimerHeap.Reheap | jni/libev/ev.c:2352-2361 | rebuilds the order from any arrangement |
| TimerHeap.Parent | jni/libev/ev.c:2229-2238 | with truncating division the root is its own parent, and no other node is |
| TimerHeap.RootIsFirst | jni/libev/ev.c:3102-3115 | in an ordered heap no node is due before the root |
| TimerHeap.PlacedCount | jni/libev/ev.c:3102-3115 | the nodes hold each active watcher exactly once |
| EventLog.EveryFedIsAnswered | jni/libev/ev.c:3274-3292 | when nothing is due any more, every event fed has exactly one answer, and an invocation that answers it has all its flags |
| EventLog.DueWasFed | jni/libev/ev.c:1985-2002 | no flag is made up: what is due was fed since the last answer |
| EventLog.LaterQueuedIsAnsweredFirst | jni/libev/ev.c:1985-2002 | of two watchers on the same queue the later one is answered before the other is invoked, whatever callbacks do |
| EventLog.FedStaysDue | jni/libev/ev.c:1985-2002 | what was fed stays due, with its flags and its place, until it is answered |
| PendingQueues.FedAgrees | jni/libev/ev.c:1985-2002 | feeding keeps the queues in step with the history: merged into the slot if pending, else on top of its queue |
| PendingQueues.UnqueuedAgrees | jni/libev/ev.c:3775-3800 | clearing gives back exactly the flags that were due, and leaves the dummy in the slot |
| PendingQueues.PopAgrees | jni/libev/ev.c:3274-3292 | popping the top of the highest queue keeps the queues in step; the dummy counts for nothing |
| PendingQueues.TopIsRightful | jni/libev/ev.c:3274-3292 | the top of the highest queue that is not empty is what the history says must come next: no watcher that is due has a larger priority field |
| EventLoop.EventLoop.FeedEvent | jni/libev/ev.c:1985-2002 | the event is in the history, and the queues hold what the history leaves due |
| EventLoop.EventLoop.ClearPending | jni/libev/ev.c:3775-3800 | the watcher is pending no longer, and gets exactly the flags that were due to it |
| EventLoop.EventLoop.TimerStart | jni/libev/ev.c:3873-3895 | an inactive timer joins the heap at its relative time from now with its priority clamped; an active one is left alone |
| EventLoop.ClampIsNearest | jni/libev/ev.c:3802-3809 | of the priorities from -2 to 2 a watcher gets the nearest |
| EventLoop.EventLoop.TimerStop | jni/libev/ev.c:3897-3925 | the timer leaves the heap and the queues and keeps its remaining time |
| EventLoop.EventLoop.TimerAgain | jni/libev/ev.c:3927-3952 | a repeating timer is due one interval from now, whether or not it was active; one without interval is stopped; in both cases it is not pending |
| EventLoop.EventLoop.TimersReschedule | jni/libev/ev.c:3450-3461 | every expiry time moves by the same amount and the heap stays valid |
| EventLoop.EventLoop.SetTimer | jni/libev/ev.h:694-694 | the times of an inactive timer are set, those of an active one are left alone, and heap and queues stay valid |
| EventLoop.EventLoop.SetPriority | jni/libev/ev.h:729-732 | the priority of a watcher that is neither active nor pending is set, and heap and queues stay valid |
| EventLoop.EventLoop.FeedReverseDone | jni/libev/ev.c:2004-2017 | what was collected is fed last first |
| EventLoop.EventLoop.TimersReify | jni/libev/ev.c:3320-3355 | ends; feeds exactly the timers that had expired, each once, in reverse order of expiry; none is left expired, one-shot timers are stopped, a repeating one is due an interval after its expiry or, if that is past, now, and no other time changes |
| EventLoop.EventLoop.Iterate | jni/libev/ev.c:3320-3355 | over any number of iterations a repeating timer stays active, and is due where reifying it at each of these moments puts it |
| Expiry.KeepsScheduleIff | jni/libev/ev.c:3334-3338 | it stays a whole number of intervals, one for each expiry, after its first expiry if and only if it was never late by more than an interval; else it runs behind |
| EventLoop.EventLoop.InvokePending | jni/libev/ev.c:3274-3292 | whatever the callbacks feed, start or stop, each invocation takes what is due to the watcher whose priority field is highest at that moment, and on return nothing is pending |
| EventLoop.EventLoop.RunTimers | jni/libev/ev.c:3320-3355 | with no timer pending before, expired timers of the same priority are answered in order of expiry, whatever the callbacks do |
| EventLoop.EventLoop.Run | jni/libev/ev.c:3117-3167 | after any sequence of timer calls, feedings, expiries, clock changes, dispatches, new watchers, and settings of inactive timers and priorities, the heap and queues are as verify_heap and verify_watcher assert, and activecnt counts the active timers |
| EventLoop.EventLoop.ActiveAreCounted | jni/libev/ev.c:3811-3825 | activecnt is the number of active timers |
| Expiry.InOrder | jni/libev/ev.c:2004-2017 | feeding backwards undoes the stack: timers are answered forwards |
| Descriptors.Poll.Modify | jni/libev/ev_poll.c:51-86 | the entry of one descriptor is made, changed or removed, no other changes, and the index stays the inverse of the array |
| Descriptors.Poll.TakeOut | jni/libev/ev_poll.c:73-85 | after swap-remove the last entry is found at its new place |
| Descriptors.Loop.FdChange | jni/libev/ev.c:2124-2137 | the list of changes holds each marked descriptor exactly once, and a descriptor keeps the flags it had |
| Descriptors.Loop.IoStart | jni/libev/ev.c:3828-3852 | the watcher is at the front of its descriptor's list, the descriptor is marked, no other list changes, and activecnt counts the active watchers |
| Descriptors.Loop.IoStop | jni/libev/ev.c:3854-3871 | the watcher is off its descriptor's list, the descriptor is marked, and no other list changes |
| Descriptors.Loop.FdReify | jni/libev/ev.c:2065-2122 | nothing is marked any more and the poll array asks for every descriptor exactly what its watchers wait for |
| Descriptors.Loop.PollsExactly | jni/libev/ev.c:2065-2122 | then a descriptor has an entry exactly if an active watcher of it waits for something, only one, with the union of what they wait for |
| Descriptors.WlistDel | jni/libev/ev.c:3759-3772 | the list without that watcher, the others in order |
| Descriptors.UnionIs | jni/libev/ev.c:2092-2112 | the union has a flag exactly if some watcher waits for it |
| Waits.PeriodicRecalc | jni/libev/ev.c:3359-3381 | ends at the first time after now that is a whole number of intervals after the guess, at most one interval later |
| Waits.LongIntervalsKeepSchedule | jni/libev/ev.c:3359-3381 | from MIN_INTERVAL on the result is on the schedule |
| Waits.ScheduleKeptIff | jni/libev/ev.c:3359-3381 | the result is on the schedule at all times if and only if the interval is at least MIN_INTERVAL or divides it |
| Waits.GridPointIsUnique | jni/libev/ev.c:3359-3381 | so the result is the only scheduled time within one interval from now |
| Waits.ShortIntervalsDrift | jni/libev/ev.c:3362-3364 | some interval below it has results off the schedule |
| Waits.MinimumInterval | jni/libev/ev.c:482-482 | the minimum interval is one part in 8192 of a second |
| Waits.WaitTimes | jni/libev/ev.c:3592-3648 | sleep and wait together do not exceed the larger of the backend's minimum, the timeout granularity and the time left to any active timer or periodic; no sooner than the first is due; nothing when the loop must not wait; the sleep is as long as events are to be collected, or all but the backend's minimum |
| Waits.WaitForRoot | jni/libev/ev.c:3607-3626 | the heap's root alone gives the least time left to any watcher |

## Left out

- Program.CompileProgram: the optimizer (`bpf_optimize`) is not run; Ethernet without variable-length headers, VLAN or MPLS. The memory bound is for the worst case of long jumps, not the exact size of the program.
- Program.CompileHostProgram: 802.11 without a radio header in front.
- Linearize.Emit: memory is a parameter, at most 2^31 - 1 instructions.
- Linearize.FillBlock: jumps inside a block and no-op statements, which only other generators and the optimizer make, do not occur; a block's statements are a sequence, not a linked list.
- FilterCompiler.GenExpr: Ethernet, whose offsets are constant; code that finds variable offsets is left out.
- FilterCompiler.GenFilter: host names, ports, gateways and the address tests of Ethernet are left out.
- Arithmetic.GenLoad: the link, network and transport layers of Ethernet over IPv4 and its siblings, not the other link types.
- BlockGraph.FinishParse: what the prologue for variable-length headers computes is not modelled, only that it runs first.
- Interpreter.PcapFilter: cut off after a given number of instructions, since programs with backward jumps need not end; negative packet lengths, the auxiliary data for VLAN tags and loads from the ancillary area are left out.
- Validator.ValidatedIsSafe: constant shifts by 32 or more, which the validator lets through and C leaves undefined, are excluded.
- Validator.StepInside: it excepts the same shifts.
- FieldTests.GenBcmp: for constant offsets, as on Ethernet and for the fixed part of the 802.11 header.
- Protocols.GenTran: the abbreviations for transport protocols on Ethernet; the others are long lists of the same kind.
- Wlan.GenWlanhostop: the directions src, dst and their combinations; addr1 to addr4, ra and ta name one fixed field each.
- Wlan.SourceTold: the standard's table also has rows for aggregated frames (A-MSDU), where the third and fourth addresses differ; the code does not look for them, and neither does the model.
- Wlan.DestinationTold: the same rows are left out.
- NetPrefix.GenMcode: strings are those the scanner admits, one to four numbers and dots, on Ethernet; the address parser for link addresses (`pcap_ether_aton`) and host names are left out.
- OffsetShapes.LoadShapesAgree: the value in the register is given; the code that puts it there at the start is left out.
- Wakeup.NoLostWakeup: sequentially consistent steps; the fences are taken to give that. The eventfd variant is left out; the pipe has any capacity of at least one.
- Wakeup.LoopDelivers: without further senders; that the kernel and the scheduler let the loop run is taken for granted. Signals stay attached to the loop; ev_signal_stop and signalfd are left out.
- EarlySends.SafeIffCalm: new sends before the first start are excluded from the later runs, as the manual does; with assertions compiled out.
- EventLoop.EventLoop.TimersReify: periodic watchers have the same heap and the same reverse feeding, and are left out there.
- EventLoop.EventLoop.Iterate: the callbacks between the iterations are left out, and the clock's readings are its input.
- EventLoop.EventLoop.InvokePending: callbacks may feed, clear, start, stop and restart watchers, but do not run the loop recursively.
- EventLoop.EventLoop.Run: the program does not change the priority or the times of an active watcher, which the manual forbids.
- EventLoop.EventLoop.TimerStart: array growth doubles without rounding to pages, and allocation does not fail.
- Descriptors.Loop.FdReify: the poll backend, which is the one in use; errors of the system call (`fd_ebadf`, `fd_kill`) are left out.
- Descriptors.Loop.IoStart: a descriptor's watcher list is a sequence, so the corruption check of the linked list has no counterpart; the clamp of the priority is that of EventLoop.EventLoop.PriAdjust.
- Descriptors.Loop.IoStop: its clear_pending is EventLoop.EventLoop.ClearPending.
- Waits.WaitTimes: times are reals, and rounding is not the point; updates of the clock (`time_update`) are inputs.
- Other link types and protocols of `gen_linktype`, protocol chains (`gen_protochain`), ATM, MTP, Geneve, PF and DECnet tests.
- The scanner and parser: filters are given as trees.
- Idle, prepare, check, child, stat, fork and embed watchers, and the select, epoll, kqueue and port backends.
- Memory management and the error jumps: errors are results.
